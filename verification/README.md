# A verified model of aardvark-dns

aardvark-dns reads one configuration file per container network, answers DNS
queries from indexes built out of those files, forwards what it does not know,
and keeps one server per network and listen address running across reloads.
This project models that behaviour in Dafny and proves what it promises.
`dafny verify dfyconfig.toml` checks everything.

## How the model is laid out

| file | contents |
|---|---|
| `Text.dfy`, `Collect.dfy`, `Maps.dfy`, `Wrappers.dfy` | splitting and joining of ASCII text; reading a sequence of rows by concatenation, by sum and by last writer; map access with defaults |
| `Address.dfy` | IPv4 and IPv6 addresses and their text (section 2.2 of RFC 4291, with compressed and dotted-quad forms) |
| `ReverseName.dfy`, `LetterCase.dfy` | reverse names (section 3.5 of RFC 1035, section 2.5 of RFC 3596), the decoding behind PTR queries, and letter case in them |
| `Config.dfy`, `ConfigText.dfy`, `ConfigLines.dfy` | the parser of a configuration file; its printer and the round trip; what each line and column means |
| `Rows.dfy`, `Index.dfy`, `Builder.dfy`, `Existence.dfy` | the configuration as flat rows; maps that represent rows; the builder class with its nine maps, and the final join; that every sequence of files has a backend |
| `Backend.dfy`, `Queries.dfy` | the queries and their meaning as scans of the rows |
| `Entries.dfy`, `FileNames.dfy` | the same said of the files' entries and of the directory listing, without rows |
| `FileOrder.dfy`, `PtrOrder.dfy`, `DecisionOrder.dfy` | what depends on the order of files and of the join: the indexes and lookups, reverse answers, decisions |
| `CoreDns.dfy`, `Records.dfy`, `Answers.dfy`, `Isolation.dfy` | the decision on one query; the records of an answer; forward-confirmed names, spellings and forwarding; internal containers and the choice of servers |
| `Failover.dfy` | forwarding to several servers within one time budget |
| `ResolvConf.dfy`, `ResolvLines.dfy` | the host's resolver file, and what its lines mean |
| `Threads.dfy`, `Serve.dfy`, `Daemon.dfy` | running servers and sockets as a state machine; the reconciling methods; reloads and the event loop |
| `Snapshot.dfy` | queries in flight while backend and host list are swapped |

The simple form of a configuration is a sequence of rows (network, internal,
container, addresses, names, DNS servers). `Builder.Built` says that a backend
answers as scans of the rows would; `Builder.ParseConfigs` establishes it, and
every theorem about queries and answers assumes only that. The orders in which
the program walks hash maps and the directory are arbitrary: the loops choose
any element, and the statements hold for every choice.

The steps of the state machine in `Threads.dfy` are single: one handle removed,
one task's end awaited, one socket bound. The methods of `Serve.Server` take
these steps, let the surroundings act whenever the program waits, and record
each state in a ghost history, so that what is proved of every run holds of
every state the methods go through. `quiet` means that, for the duration of a
call, other processes take no address and a bind fails only on an address that
is held; server tasks may still end by themselves.

## What the code does that one might not expect

- Files `podman` and `podman%int` describe one network. Its kind is that of the
  row read last (`Isolation.InternalExact`), so a container with DNS servers of
  its own can count as internal (`Isolation.CollapsedNames`), and an internal
  container can have network servers (`Isolation.CollapsedServers`);
  `Isolation.IsolationExactly` says when neither is so. Distinct network names
  suffice, and hold unless two file names clash in this way
  (`FileOrder.NoClashDistinct`).
- The servers of a container are those of the file read last
  (`FileOrder.RowsOrderExactly`), and the names in a reverse answer those of the
  requester's first network that lists the address (`PtrOrder.FirstFileNames`).
- With an empty search domain nothing is ever forwarded, and with search domain
  `.` no name with a final dot is (`Answers.ForwardingExactly`).
- A name is looked up in lower case, but compared with the search domain as
  received (`Answers.CaseEscapesDomain`); an upper-case letter in the search
  domain disables it for lookups (`Backend.DomainIgnored`); reverse suffixes are
  compared with their case (`LetterCase.SuffixCaseMatters`).
- A name ending in the search domain is given in reverse but may not be found
  forward (`Answers.SearchDomainShadows`); when it is, `Answers.ConfirmedExactly`
  says.
- A server whose task ended after a failed accept keeps its handle, so that a
  reload without error neither notices nor restarts it
  (`Threads.EndedServerKeepsHandle`, `Threads.HandleMeans`).
- The number of resolvers is cut to 32 bits before the time budget is divided
  (`Failover.TimeoutShares`).
- `config.md` describes four or five columns for a container; the code reads a
  fifth only when there are exactly five, and ignores it otherwise. The model
  follows the code.

## Model

| member | source | states |
|---|---|---|
| Builder.ParseConfigs | src/config/mod.rs:23-232 | for any directory contents the result is a backend and listen addresses that answer as scans of the loaded files' rows do; it is an error exactly when the path cannot be read or listed, is not a directory, or holds a configuration whose name is not UTF-8, so the error of the final join is never returned |
| FileNames.LoadedInOrder | src/config/mod.rs:51-112 | of a listing exactly the files are loaded that have a name that is text, are not `aardvark.pid`, and parse: each once, in order, with the configuration of its text, internal exactly when its name ends in `%int`, and called by its name without that |
| FileNames.RefusedExactly | src/config/mod.rs:31-109 | a directory is refused exactly when it cannot be read or listed, is none, or holds a configuration that parses under a name that is no text |
| Entries.AddressKnown | src/config/mod.rs:146-217 | an address is known exactly when some entry of a loaded file has it in its IPv4 or its IPv6 column |
| Entries.EntryIpsCount | src/config/mod.rs:146-177 | the addresses of an entry are those of both columns, each as often as written |
| Entries.NetworkCount | src/config/mod.rs:138-217 | an address is mapped to a network as often as it stands in entries of containers with an entry in the network |
| Entries.NameListing | src/config/mod.rs:182-187 | under a name a network lists, in order, the addresses of its entries with that name, IPv4 before IPv6 |
| Entries.AddressListing | src/config/mod.rs:148-177 | for an address a network lists, in order, the names of its entries with that address |
| Entries.ReverseCount | src/config/mod.rs:148-177 | a name is listed for an address as often as both stand together in entries of the network |
| Entries.CtrServers | src/config/mod.rs:156-174 | a container's servers are those of the last entry off internal networks with its address |
| Entries.NetworkKind | src/config/mod.rs:189-189 | the kind of a network is that of the last entry read for it |
| Entries.NetworkServersOf | src/config/mod.rs:110-122 | the servers of a network are those of the last file that is internal or has some, and none if it is internal |
| Builder.IndexTables.AddEntry | src/config/mod.rs:137-190 | one entry extends what the maps represent by exactly its row: membership without repeats, addresses, reverse and forward lists in order, DNS servers off internal networks, the network's kind |
| Builder.IndexTables.AddAddresses | src/config/mod.rs:148-177 | after each address of one family the reverse and DNS maps represent the row with the addresses so far |
| Builder.IndexTables.AddNames | src/config/mod.rs:182-187 | each alias of the entry lists all its addresses, after the network itself is listed |
| Builder.IndexTables.AddFile | src/config/mod.rs:87-191 | one file extends the representation by its rows, its DNS servers (none for an internal network) and its listen addresses |
| Builder.IndexTables.AddBindIps | src/config/mod.rs:124-135 | bind addresses go to the list of their family, in order |
| Builder.IndexTables.JoinTables | src/config/mod.rs:200-217 | containers are joined in some order that meets each once; an error names a container with addresses but no membership |
| Builder.IndexTables.Finish | src/config/mod.rs:200-231 | on tables that represent rows the join cannot fail and the backend represents the same rows |
| Index.JoinCount | src/config/mod.rs:203-209 | joining container by container, in any order, maps an address to a network as often as summing over all rows says, repeats and shared addresses included |
| Index.JoinKnown | src/config/mod.rs:203-209 | an address is mapped exactly when some row has it |
| Rows.MembershipCount | src/config/mod.rs:138-144 | a container's networks are listed once each, exactly those it has an entry in |
| Rows.Duality | src/config/mod.rs:146-187 | in each network a name is listed for an address as often as the address is listed for the name |
| Config.ParseConfig | src/config/mod.rs:253-398 | the loop with its first-line flag reads a file as its non-blank lines, a header and then entries, with the error of the first line at fault |
| ConfigLines.TextExactly | src/config/mod.rs:253-398 | a text is read as a configuration exactly when, of its lines that are not empty, the first lists the bind addresses and servers and the others are the entries in order, column by column, with names in lower case |
| ConfigLines.TextErrors | src/config/mod.rs:260-391 | the error of a text is that of its first line at fault, and a text without lines has no bind address |
| ConfigLines.HeaderErrors | src/config/mod.rs:266-305 | a header is refused for its first address that does not parse, bind addresses first |
| ConfigLines.EntryErrors | src/config/mod.rs:308-374 | an entry is refused exactly for too few columns or for its first column with a piece that does not parse |
| ConfigLines.LeadingNewline | src/config/mod.rs:262-265 | an empty line changes nothing at the start of a text |
| ConfigLines.TrailingNewline | src/config/mod.rs:262-265 | or at its end |
| ConfigLines.DoubledNewline | src/config/mod.rs:262-265 | or between two parts of it |
| ConfigLines.PrintParseNewline | src/config/mod.rs:253-398 | the documented text with a newline at its end parses to its configuration |
| ConfigLines.MoreColumns | src/config/mod.rs:361-374 | with six columns or more only the first four count |
| ConfigLines.LowerCaseNames | src/config/mod.rs:348-377 | identifier and names are read in lower case |
| Config.ParseAddresses | src/config/mod.rs:275-285 | pushing addresses one by one yields the whole list or the first piece that does not parse |
| ConfigText.PrintParse | src/config/mod.rs:253-398 | parsing the documented text of a well-formed configuration returns it: bind addresses, entries and DNS lists, in order |
| ConfigText.ParsedIsWellFormed | src/config/mod.rs:318-398 | whatever parses has a bind address, names in lower case without separators, and no present but empty list |
| ConfigText.WellFormedExactly | src/config/mod.rs:253-398 | the configurations that some text has are exactly the well-formed ones, and reprinting one preserves it |
| ConfigText.TryEachError | src/config/mod.rs:308-374 | a list of texts is refused exactly when one of them is, with the error of the first |
| Address.DigitValues | src/config/mod.rs:276-276 | digits are read with their values, letters in either case |
| Address.IpRoundTrip | src/config/mod.rs:276-276 | every address is read back from its full text |
| Address.V4RoundTrip | src/config/mod.rs:319-319 | a dotted quad is read as an address exactly when it is its canonical text |
| Address.V6Compressed | src/config/mod.rs:334-334 | a double colon between pieces without dots stands for the missing groups of zeros, at least one, and such a text is an address exactly when all pieces are one to four hexadecimal digits |
| Address.V6Mixed | src/config/mod.rs:334-334 | six groups and a dotted quad are an address |
| Address.V6CompressedMixed | src/config/mod.rs:334-334 | and so are fewer groups, with a double colon, and a quad at the end |
| Address.QuadBeforeGap | src/config/mod.rs:334-334 | but a quad before a double colon is refused |
| Address.FullForm | src/config/mod.rs:334-334 | eight pieces without dots are an address exactly when each is one to four hexadecimal digits |
| Backend.New | src/backend/mod.rs:34-58 | the backend holds the given maps, and the search domain ends in a dot unless it is empty |
| Backend.TerminatedExactly | src/backend/mod.rs:43-48 | the stored search domain is the domain, with one dot more unless it is empty or ends in a dot |
| Backend.Lookup | src/backend/mod.rs:62-116 | the loop returns the addresses under the normalised name over the requester's networks, or the listener's for an unknown requester, and nothing if there are none |
| Backend.GetNetworkScopedResolvers | src/backend/mod.rs:119-137 | the servers of the requester's networks, in order |
| Backend.CtrIsInternal | src/backend/mod.rs:142-162 | true exactly for a known requester none of whose networks is recorded as not internal |
| Entries.InternalUnlessOpen | src/backend/mod.rs:142-162 | a known source is internal unless one of its networks is recorded as not internal |
| Entries.UnknownSource | src/backend/mod.rs:119-175 | an unknown source has no network servers and no reverse names, and is not internal |
| Backend.ReverseLookup | src/backend/mod.rs:165-175 | the names of the first network of the requester that lists the address |
| Backend.FirstListing | src/backend/mod.rs:168-174 | a reverse answer is the listing of some network of the requester, and there is none exactly when no such network lists the address |
| Text.LowerLetters | src/backend/mod.rs:69-69 | the 26 letters are lowered, each to its own, and nothing else is |
| Backend.NormaliseLower | src/backend/mod.rs:69-69 | only the lower-case form of a query matters |
| Backend.NormaliseExactly | src/backend/mod.rs:68-81 | a query is looked up by what precedes the search domain in its lower-case form, if that ends in it, less a final dot |
| Backend.NormaliseDomain | src/backend/mod.rs:43-81 | a name is looked up by itself, and the name with the search domain, with or without a dot between, is looked up by the name exactly when the domain is in lower case |
| Backend.DomainIgnored | src/backend/mod.rs:69-76 | with an upper-case letter in it, the search domain is taken off no query |
| Backend.UpperDomain | src/backend/mod.rs:69-76 | with search domain `DNS`, `web.DNS.` is not looked up by `web` |
| Backend.NormaliseAbsolute | src/backend/mod.rs:74-81 | the name with a final dot is looked up by the name exactly when it does not end in a search domain of more than a dot |
| Queries.LookupCountKnown | src/backend/mod.rs:83-115 | a known requester gets an address as often as the join of its rows, its container's memberships and the rows listing the name has ways to reach it |
| Queries.LookupCountUnknown | src/backend/mod.rs:89-92 | an unknown requester gets exactly the listener network's rows, with multiplicity |
| Queries.LookupJoin | src/backend/mod.rs:83-115 | for a known requester an address is in the answer exactly when the three rows of the join exist |
| Entries.LookupCountByEntry | src/backend/mod.rs:83-115 | for a known requester, an address is in the answer once for every way from an entry with the requester's address over a network of that container to an entry there with the name and the address |
| Entries.LookupCountOutside | src/backend/mod.rs:89-92 | an unknown requester gets the addresses of entries of the listener's network with the name, as often as both stand in them |
| Entries.LookupByEntry | src/backend/mod.rs:83-115 | so an address is in the answer exactly when three entries lead to it |
| Entries.TwoNetworks | src/backend/mod.rs:96-137 | answers and servers of two networks come in the order of the networks |
| Queries.MappedMember | src/config/mod.rs:200-217 | the networks of an address are exactly those that containers having it have joined |
| Queries.IndexDuality | src/config/mod.rs:146-187 | on a built backend forward and reverse listings agree in number |
| Queries.ForwardIsReverse | src/backend/mod.rs:83-115 | whatever a known requester asks for, an address is in the answer exactly when one of its networks lists the normalised name for the address in reverse |
| Queries.WellLinked | src/backend/mod.rs:98-104 | every network an address is mapped to has a listing and a known kind, so those fallbacks never run on a built backend |
| FileOrder.MappingsOrder | src/config/mod.rs:50-51 | for any order of files and of the join, addresses are mapped to the same networks, as often |
| FileOrder.LookupOrder | src/config/mod.rs:50-51 | every lookup returns the same addresses with the same multiplicities for any order of the files |
| FileOrder.NetworkMapsOrder | src/config/mod.rs:50-51 | with distinct network names the forward and reverse maps of every network are equal for any order, lists in order |
| FileOrder.KindsOrder | src/config/mod.rs:114-122 | with distinct names, networks' kinds and DNS servers are equal for any order |
| FileOrder.InternalOrder | src/backend/mod.rs:142-162 | with distinct names, whether a requester counts as internal does not depend on the order |
| FileOrder.ListenOrder | src/config/mod.rs:124-135 | with distinct names the listen addresses are equal for any order |
| FileOrder.ResolversOrder | src/backend/mod.rs:119-137 | with distinct names, network-scoped servers are equal up to order |
| FileOrder.NetworkListsOrder | src/config/mod.rs:146-187 | for any order of files, with or without distinct names, each network's lists hold the same, as often |
| FileOrder.RowsOrderExactly | src/config/mod.rs:50-51 | whatever the last row read decides is the same for every order of the files exactly when the files that say anything about it agree |
| FileOrder.CtrDnsOrder | src/config/mod.rs:157-159 | a container's servers do not depend on the order when the files that have its address off internal networks agree on them |
| FileOrder.CtrDnsOrderMatters | src/config/mod.rs:157-159 | when two of those files disagree there are backends, built in two orders, that give the address different servers |
| FileOrder.CtrDnsOrderExactly | src/config/mod.rs:157-159 | so all backends built from the files in any order give an address the same servers exactly when the files agree on them |
| FileOrder.TwoServers | src/config/mod.rs:157-159 | two concrete files that disagree |
| FileOrder.KindOrderExactly | src/config/mod.rs:189-189 | all backends built from the files in any order give a network the same kind exactly when the files that have rows of it agree |
| FileOrder.NetworkDnsOrderExactly | src/config/mod.rs:113-121 | and the same servers exactly when the files that set them agree |
| Existence.Realise | src/config/mod.rs:50-232 | for every sequence of files and every order of the join there is a backend built from them |
| FileOrder.NameClash | src/config/mod.rs:95-99 | two file names give one network name exactly when they are equal or one is the other with the internal suffix |
| FileOrder.NoClashDistinct | src/config/mod.rs:95-99 | without such a pair of files all loaded networks have distinct names |
| PtrOrder.NamesOrderExactly | src/backend/mod.rs:168-174 | with distinct names, all backends built from the files, for every order of the files and of the join, give a requester the same names for an address exactly when all its networks that list the address list the same names |
| PtrOrder.ReverseAnswerOrder | src/backend/mod.rs:165-175 | whether there is a reverse answer does not depend on the order, nor does the answer when the listings are the same |
| PtrOrder.FirstFileNames | src/backend/mod.rs:168-174 | one container in two networks is given the name of the file read first, for two concrete files |
| PtrOrder.SoleContainer | src/config/mod.rs:203-209 | an address of one container only is mapped to the networks of that container in the order of the files, whatever the order of the join |
| DecisionOrder.DecisionUpToOrder | src/dns/coredns.rs:155-263 | with distinct names a query is answered, refused or forwarded alike for every order; records are the same up to order, for PTR if listings are the same, and so are the servers asked, if files agree on those of the source |
| ReverseName.DecodeReverseName | src/dns/coredns.rs:417-438 | the decoding loop yields the labels reversed and joined, or run together with colons after every fourth |
| ReverseName.ReverseRoundTrip | src/dns/coredns.rs:417-443 | decoding the canonical reverse name of any IPv4 or IPv6 address gives the address |
| ReverseName.ArpaDomains | src/dns/coredns.rs:417-421 | the canonical names stand under `in-addr.arpa` and `ip6.arpa` |
| ReverseName.Ip6TextShape | src/dns/coredns.rs:424-433 | 32 one-character labels give 39 characters, with a colon after each group of four except the last |
| ReverseName.InAddrExact | src/dns/coredns.rs:417-418 | an IPv4 address is asked about by exactly one name |
| ReverseName.Ip6Exact | src/dns/coredns.rs:421-443 | a name of non-empty labels without colons asks about an IPv6 address exactly when its 28 highest labels are one hexadecimal digit each, in either case, and the others, of which there is at least one, are one to four together; and then about the address they spell |
| LetterCase.AddressLower | src/config/mod.rs:276-276 | addresses are read in either letter case |
| LetterCase.SuffixCaseMatters | src/dns/coredns.rs:417-421 | a name asks about the same address as its lower-case form exactly when it ends in one of the two suffixes as spelled, or neither asks about any |
| LetterCase.UpperSuffix | src/dns/coredns.rs:417-421 | `1.0.0.10.IN-ADDR.arpa.` asks about no address, its lower-case form about one |
| CoreDns.ReplyPtr | src/dns/coredns.rs:408-460 | the reply holds the answers already there and a record for each name that is valid |
| CoreDns.ReplyIp | src/dns/coredns.rs:462-499 | the request gains the records of the requested family, and is left alone when nothing is found |
| CoreDns.ProcessMessage | src/dns/coredns.rs:155-263 | the outcome is the decision from one backend and one host list: local answer, refusal, or forwarding |
| Records.DecidedExactly | src/dns/coredns.rs:185-263 | a query is answered exactly when the backend finds addresses for it or names, else refused exactly when forwarding is off, the source is internal or the name is under the search domain, else forwarded |
| Records.AddressRecords | src/dns/coredns.rs:474-497 | an answer to a query for addresses adds the record of each address of the asked family as often as it was found, and nothing else |
| Records.NameRecords | src/dns/coredns.rs:444-456 | an answer to a PTR query adds a record for each listed name that is valid, as often as it is listed, and nothing else |
| Records.ServerPorts | src/dns/coredns.rs:230-241 | configured servers are asked on port 53, in order |
| CoreDns.ChooseServers | src/dns/coredns.rs:228-245 | the container's servers, else its networks', else the host's |
| Answers.ConfirmedExactly | src/dns/coredns.rs:408-498 | if a PTR query for an address's reverse name gives a name, the address query for that name from the same source is answered with the address exactly when the normalised name is listed for the address too |
| Answers.ForwardConfirmed | src/dns/coredns.rs:408-498 | so a name given in reverse that normalises to itself is always confirmed, whatever answers the request already holds |
| Answers.ParsedForwardConfirmed | src/dns/coredns.rs:408-498 | on a loaded directory that holds for every reverse answer without a final dot and outside the search domain |
| Answers.SearchDomainShadows | src/backend/mod.rs:74-76 | inside the search domain it fails: a concrete name is given in reverse and not found forward |
| Isolation.InternalExact | src/backend/mod.rs:142-162 | a requester counts as internal exactly when it is known and the last row of each of its networks is internal |
| Isolation.InternalMeans | src/backend/mod.rs:139-162 | with distinct names, exactly when it is known and has joined internal networks only |
| Isolation.IsolationExactly | src/dns/coredns.rs:216-222 | nothing a requester counted as internal asks is forwarded; it has no servers of its own and an empty list of network servers exactly when no row off the internal networks has its address and, for each of its networks, no file has the last word with servers |
| Isolation.InternalIsolation | src/dns/coredns.rs:216-222 | with distinct names an internal requester has no servers of its own, an empty list of network servers, and no query of its is forwarded |
| FileNames.InternalByName | src/backend/mod.rs:142-162 | in a directory without clashing names a requester counts as internal exactly when some entry has its address and all files with entries of its containers are named `%int` |
| FileNames.IsolationByName | src/dns/coredns.rs:216-222 | such a requester has no servers and is never forwarded for |
| FileNames.OpenNetworkForwards | src/config/mod.rs:95-99 | a query from the container of file `podman` is forwarded |
| FileNames.InternalNetworkRefuses | src/config/mod.rs:95-99 | and refused when the file is called `podman%int` |
| Isolation.CtrDnsExact | src/config/mod.rs:156-174 | an address has an entry for servers exactly when a row off the internal networks has it |
| Isolation.CollapsedNames | src/config/mod.rs:95-99 | with two concrete files for one network name, an internal requester has servers of its own |
| Isolation.CollapsedServers | src/config/mod.rs:113-121 | with two other concrete files for one network name, an internal requester has network servers |
| Isolation.ResolverPrecedence | src/dns/coredns.rs:228-245 | a forwarded query goes to the last servers configured for the address, else to the networks' in order, else to the host's; no configured container falls through |
| Answers.SpellingsAgree | src/backend/mod.rs:68-81 | the answers for a name, with a final dot, in lower case and with a search domain in lower case are the same |
| Answers.ForwardingExactly | src/dns/coredns.rs:216-222 | something a source asks is forwarded exactly when forwarding is on, the source is not internal and the search domain is not empty; something with a final dot exactly when, besides, the search domain is not a dot |
| Answers.SpellingDecides | src/dns/coredns.rs:218-218 | a name without answer, of any type but PTR, is refused exactly when it ends in the search domain as spelled, and so for its lower-case form; the two part exactly when only one does |
| Answers.CaseEscapesDomain | src/dns/coredns.rs:218-218 | with search domain `dns`, `Web.DNS.` is forwarded and `web.dns.` refused |
| Failover.ForwardToServers | src/dns/coredns.rs:265-321 | at most one reply is sent, from the first server that serves, after all earlier ones failed; the time is that of the servers tried; a count that is a multiple of 2^32 panics |
| Failover.FailsExactly | src/dns/coredns.rs:297-319 | a server fails when it gives no response that can be serialised, or over TCP cannot be connected |
| Failover.TimeoutShares | src/dns/coredns.rs:272-276 | each server gets at least a nanosecond, and all together at most five seconds exactly when there are fewer than 2^32 |
| Failover.LargestShare | src/dns/coredns.rs:272-276 | below 2^32 servers the share is the largest that fits the five seconds, all of them for one server |
| Failover.TimeAddsUp | src/dns/coredns.rs:277-319 | the time is the sum of all exchanges and, over TCP, connections, with no exchange where none was made |
| Failover.FailoverBound | src/dns/coredns.rs:265-321 | if attempts obey their timeouts, all of them take at most 5 s over UDP and 10 s over TCP |
| ResolvConf.ParseResolvConf | src/server/serve.rs:427-486 | the loop yields the servers of all lines in order, cut to three, or the first error |
| ResolvLines.ServerOnLine | src/server/serve.rs:435-477 | a line `nameserver` and a word, among white space and before anything more, gives that address on port 53, and is an error if the word is no address |
| ResolvLines.AddressOnLine | src/server/serve.rs:435-477 | so every address is read back |
| ResolvLines.ZoneOnLine | src/server/serve.rs:440-474 | with a zone, an IPv6 address gets its number, or that of the interface it names; an IPv4 address or a zone without number is an error |
| ResolvLines.OtherWord | src/server/serve.rs:435-436 | a line whose first word is another gives nothing |
| ResolvLines.AloneOnLine | src/server/serve.rs:437-437 | nor does `nameserver` alone |
| ResolvLines.NothingOnLine | src/server/serve.rs:435-481 | nor a line of white space or a comment |
| ResolvLines.CommentDropped | src/server/serve.rs:430-434 | what follows `#` or `;` on a line, with it, is as good as nothing |
| ResolvLines.FirstThree | src/server/serve.rs:484-486 | a file of server lines gives the first three servers in order |
| ResolvConf.JoinedTexts | src/server/serve.rs:427-486 | two texts joined by a newline are accepted exactly when both are, and give the first three of both uncut lists |
| ResolvConf.CommentContent | src/server/serve.rs:430-434 | replacing the content of a comment never changes the result |
| Threads.InvStep | src/server/serve.rs:161-218 | every step, of the program or of its surroundings, keeps handles and sockets consistent |
| Threads.RunSafety | src/server/serve.rs:140-259 | in every run, at rest, a bound address is bound for UDP and TCP by one task, which belongs to exactly one handle, of a server on that address |
| Threads.OneAddressEach | src/server/serve.rs:177-218 | no server holds two addresses |
| Threads.HandleMeans | src/dns/coredns.rs:81-115 | in every run a handle is of a server that was started with both sockets, and that has them still exactly when its task has not ended by itself since |
| Threads.DeadStays | src/dns/coredns.rs:108-111 | in every run a task that has lost its sockets never gets one again |
| Threads.EndedServerKeepsHandle | src/dns/coredns.rs:108-111 | a concrete run in which a server has a handle but no socket |
| Threads.AddressFree | src/server/serve.rs:158-218 | when only expected servers are left on an address and each address has one network, the address of a server to be started is free |
| Serve.Server.Interfere | src/dns/coredns.rs:81-115 | while the program waits, tasks end and others take addresses, but a socket being set up stays |
| Serve.Server.RemoveHandle | src/server/serve.rs:240-244 | removing a handle needs its key to be there, and its task had not been stopped before |
| Serve.Server.StopThreads | src/server/serve.rs:230-259 | exactly the given servers, or all, are removed, and their tasks hold no socket afterwards; every key removed is there, so the unwrap never fails |
| Serve.Server.StartServer | src/server/serve.rs:177-217 | a server gets a new task, or nothing changes: a UDP socket bound before a TCP failure is dropped |
| Serve.Server.StartServers | src/server/serve.rs:169-218 | each server to start gets a handle with a new task or one error, others are untouched; there is no error when no other process holds an address of those servers and each address has one network |
| Serve.Server.StopAndStartThreads | src/server/serve.rs:140-225 | one family is reconciled with what is expected, without error if no other process holds an expected address and each address has one network, even when addresses moved |
| Serve.Conservation | src/server/serve.rs:220-224 | the number expected is the number of handles plus the number of errors, and there is no error exactly when each expected server has a handle |
| Serve.Phase | src/server/serve.rs:158-218 | stopping and then starting gives reconciliation: only expected servers have a handle, kept ones with their old task, the other family untouched |
| Daemon.ExpectedIsConfigured | src/server/serve.rs:151-156 | the servers expected in both phases are those that the files ask for |
| Daemon.NothingToListen | src/server/serve.rs:304-305 | there is no listen address exactly when no file was loaded |
| Daemon.TwoPhases | src/server/serve.rs:341-365 | both phases together reconcile all servers: conservation, no restart of a kept server, and no change at all when all had a handle |
| Daemon.Process.ReadConfigAndSpawn | src/server/serve.rs:277-372 | a failed parse changes nothing; otherwise the backend is replaced, the process exits exactly when no file was loaded, and else all servers are reconciled: each has a handle, without error, when no other process holds an address asked for and each address has one network; a server kept after its task ended stays without sockets |
| Daemon.ResolverFileChanged | src/server/serve.rs:118-131 | when the resolver file changes, a list that can be read replaces the one in use, and one that cannot leaves it |
| Daemon.DirectoryReloaded | src/server/serve.rs:286-339 | a refused directory changes nothing that was read; otherwise it is the one in use, and the host list is read again, empty if it cannot be |
| Daemon.Process.Serve | src/server/serve.rs:65-135 | it starts when the first reload is undisturbed and finds all it needs, and without starting it exits exactly when that reload loaded no file; once started, over any events, the process extends one run of the state machine, its backend is that of the directory last read, its host list the one last read, only servers that directory asks for have a handle, and it exits exactly when the last directory read loaded no file |
| Snapshot.ConsistentOutcome | src/dns/coredns.rs:161-262 | in every interleaving a query's outcome is the decision from the backend current when it arrived and one host list current later |
| Snapshot.OutcomeFinal | src/dns/coredns.rs:161-262 | an outcome, once given, is not changed by later swaps |
| Snapshot.OutcomeFromDirectory | src/server/serve.rs:286-298 | when all backends are built from directories read, every outcome is the decision on one of those backends |
| Snapshot.InternalThroughout | src/dns/coredns.rs:216-222 | a container on internal networks only, in every directory read, is never forwarded for, in any interleaving of queries and reloads |

## Left out

- Sockets, tasks, signals, inotify, daemonizing and the pid file: a bind is an outcome chosen by the surroundings, a task's end a step, a reload and a change of the resolver file are events.
- DNS messages: a query is its source, name and type, a reply the list of its records; encoding, header bits, TTL and the clients used for forwarding are not part of this model, and an upstream attempt is an outcome with a duration.
- Validity of a name in a record is an arbitrary predicate of the listener; the owner name of a PTR record is the query's name.
- Lower-casing and white space are those of ASCII; the failures of `metadata` and `read_dir` are outcomes without the system's error.
- `if_nametoindex` is an arbitrary but fixed function.
- One handle map stands for the two of the program, one for each address family; its keys carry the family, and each phase touches its own family only.
- The port is the same for all servers, so an address stands for a socket address; addresses conflict only when equal, so binding a wildcard such as `0.0.0.0` is not modelled.
- Isolation.InternalIsolation: assumes distinct network names, because it fails without them (Isolation.CollapsedNames, Isolation.CollapsedServers); Isolation.IsolationExactly says exactly when it holds.
- ReverseName.Ip6Exact: leaves out names with an empty label or a colon in a label, which can spell a compressed address.
- Logging, command line options, version output and error texts.
