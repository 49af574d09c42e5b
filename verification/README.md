# bridgedhcp in Dafny

A model of the parts of bridgedhcp whose correctness is about many steps taken together, with
proofs for every input, every interleaving and every reachable state.  `dafny verify
dfyconfig.toml` checks the whole project.

| component | files |
|---|---|
| lease engine of the DHCPv4 and DHCPv6 servers | `Addressing`, `Statics`, `Leases`, `Selection`, `LeaseRuns`, `LeaseSteps`, `LeaseRestart`, `LeaseLimits` |
| frame codec and checksums | `Checksum`, `Frames`, `FrameChecksums`, `Parsing` |
| socket filter | `Filter` |
| router advertisements | `Deprecation`, `RaOptions` |
| prefix-delegation client, the interface it drives and its advertisements | `PdEvents`, `PdTrace`, `PdReasons`, `PdClient`, `PdAdverts` |
| policy routing and sysctls | `PolicyRoutes`, `Mirrors`, `Sysctl` |
| shared arithmetic and small helpers | `Arith` |

How the system is read:

- Addresses are naturals with a width of 32 or 128; time is an integer that never goes back.
- Code that updates an object or a buffer is a class or a method over an array; what it leaves
  behind is tied to a function, and the theorems are about that function.
- Every lock region is one atomic step.  A message is handled by one reader while the sweeper
  and the control API run beside it, so address selection is a sequence of lock regions; before
  each of them sweeps may have happened, with readings taken before their lock, leases may have
  been released and the clock may have moved (`Selection.Schedule`).
- Map iteration order is arbitrary.  Where it can matter it is an explicit choice: which of
  several tied static bindings is met first, which of a client's leases is found first
  (`Selection.Picks`), the order of prefixes in an advertisement, the order of a route dump.
- The network, the uplink, wake-ups, stop, release requests and clock readings of the delegation
  client are arbitrary.  Its runs are judged by a monitor over traces (`PdTrace.Step`) that is
  written without reference to the client's code: where the client is in its three nested loops
  and what it owes there, to whom a message goes, which callbacks are owed, when a delegation may
  be given up.  Every event is stamped with the clock as it is.  What the environment does is
  recorded by the environment's own methods: the state of the uplink, whether a socket opens,
  messages read from it, failed reads, release requests, and whether stop is seen at the top of a
  loop or in a sleep.  A copy of a message is waited for until its answer is heard, its deadline has passed
  or a read has failed, and an exchange stops short only on an answer, a stop or a local error.
  The monitor's delegation, server and pending request equal the client's fields throughout.
  The theorems are about the trace alone.

Results that turned out different from what one might expect:

- "At most one lease per client" is not kept from every table that has it: a lease that a later
  reservation or prefix change put out of place is never dropped (`ReservationStrandsLease`).
  A booking keeps the client at one lease exactly when its leases are where its best match puts
  them (`OneLeaseIffInPlace`).
- A granted address stands, whatever happens until its client comes back, if and only if the
  client's best matches agree and either reserve an address for it or leave it with no other
  unexpired lease (`HandshakeIff`).  A grant to a client with a reservation always stands,
  stray leases or not.  A client without one can be refused, when its request names the address
  in ciaddr only, as soon as it has a second lease (`Refusal`, `HandshakeNeedsLeaseInPlace`).
  When the request names the address in option 50 and the client has been silent since, a second
  lease that may not be kept does no harm if the address can be taken from the pool
  (`TwoPhaseIff`).
- A tie between static bindings that reserve different addresses has, from every state,
  iteration orders that offer an address and then refuse it (`AmbiguityBreaksHandshake`).
- Callbacks alternate gain and loss if and only if the client did not start from a delegation
  restored without being served; after such a start the first callback is a loss
  (`CallbacksAlternate`, `LossWithoutGain`).
- A saved, unexpired delegation with an invalid prefix is skipped by the client and announced:
  the interface serves the bare suffix with nothing delegated (`PdClient.PdClient.Restore`), and
  that address stays on the interface when the first real delegation comes
  (`PdClient.PdIface.OnPDChange`).
- A restored delegation whose expiry lies between two clock readings is held by the client and
  served by nobody (`PdClient.PdClient.Restore`), and a renewal with the same prefix does not
  change that: service comes back exactly with a drop or with another prefix
  (`MutedUntilChange`).
- A stop in the middle of a confirmation counts as an exchange without an answer, so it can end
  in a withdrawal; `WithdrawalJustified` shows it as a blocked exchange.
- Bridges sharing interfaces keep the host hearing router advertisements in every interleaving
  if and only if every exposed uplink can be relaxed and is served by no bridge with another
  uplink (`HostHearsRAsIffSafe`).
- A repeated mirror sync is guaranteed to change nothing if and only if the best candidates
  agree on the gateway (`ResyncStableIff`); two routers with the same metric never settle
  (`TwoRoutersFlap`).
- Crafted frames parse back if and only if their length fits its 16-bit field, and RDNSS lists
  read back if and only if they have at most 127 servers.

Where code and documentation differ, the code is followed.  README.md:25-27 says the
interface's addresses are the source of truth; the code serves the configured prefix or the
delegation and never looks at live addresses (internal/server/iface.go:250-287).  The package
comment of internal/pd/client.go:1-4 says an expired delegation is re-solicited; outside
`boundLoop` the expired binding is kept while soliciting (internal/pd/client.go:325-343).

## Model

| member | source | states |
|---|---|---|
| `Addressing.OffsetExact` | internal/server/binding.go:39-55 | an offset gives an address exactly when it is smaller than the prefix, and then base plus offset |
| `Addressing.OffsetsInjective` | internal/server/binding.go:39-55 | different offsets never share an address |
| `Addressing.OffsetsTranslate` | internal/server/binding.go:14-17 | with equal prefix lengths renumbering moves every offset, valid or not, rigidly with the base |
| `Addressing.ContainsIffInBlock` | internal/server/binding.go:51-53 | masked comparison is membership in the block from base to base plus size |
| `Addressing.OrBytes` | internal/server/iface.go:430-433 | OR byte by byte is OR of the two numbers |
| `Addressing.ComposePD` | internal/server/iface.go:426-435 | the byte loop yields the masked delegation OR-ed with the suffix, with the served length |
| `Addressing.ComposeValid` | internal/server/iface.go:426-435 | the composed prefix is well formed for every delegation and suffix |
| `Addressing.ComposeIsSum` | internal/server/iface.go:424-435 | with a suffix below the served length and a delegation no longer than it, the address is delegation base plus suffix, lies in the delegation, and the served block starts at its base |
| `Statics.MatchBinding` | internal/server/binding.go:60-86 | nothing if no binding matches, otherwise a match that no other beats by conditions then order, the earliest among ties |
| `Statics.BestMatchMeans` | internal/server/binding.go:57-86 | what is matched, by the fields alone and both ways: a binding that states something, all of it true of the client; stating both conditions beats stating one, then the higher order wins; nothing only if no binding qualifies |
| `Statics.EqualFoldMeans` | internal/server/binding.go:64-74 | strings match if and only if they agree letter by letter in either case |
| `Statics.BestMatchesTie` | internal/server/binding.go:57-59 | two answers for the same client under different orders can differ only by a tie in both score and order |
| `Statics.BuildStaticSet` | internal/server/binding.go:90-106 | succeeds exactly on sets with non-empty distinct ids and valid bindings, and then holds exactly those bindings under their ids |
| `Leases.ClientKeyInjective` | internal/server/binding.go:136-139 | keys identify clients up to letter case when hardware addresses hold no slash |
| `Leases.FirstFreeIsLeast` | internal/server/binding.go:231-252 | the scan finds the least address neither skipped nor actively leased, and fails only if there is none |
| `Leases.LeaseTable.ByClient` | internal/server/binding.go:142-153 | returns a lease of the client unexpired at one of its readings, or nothing if none is unexpired at the last one |
| `Leases.LeaseTable.Set` | internal/server/binding.go:155-160 | replaces the lease at one address and nothing else, and keeps leases under their own address |
| `Leases.LeaseTable.Release` | internal/server/binding.go:162-173 | removes the named address, expired or not, and reports whether it was there |
| `Leases.LeaseTable.InUse` | internal/server/binding.go:175-185 | true exactly for an unexpired lease of another client |
| `Leases.LeaseTable.ExpireSweep` | internal/server/binding.go:187-201 | keeps exactly the unexpired leases and reports whether anything went |
| `Leases.LeaseTable.Snapshot` | internal/server/binding.go:203-216 | lists the unexpired leases, each once, in address order |
| `Leases.LeaseTable.Load` | internal/server/binding.go:218-229 | replaces the contents by the listed leases, later entries winning |
| `Leases.LeaseTable.Allocate` | internal/server/binding.go:231-252 | terminates also at the top of the address space, books the first free address, and changes nothing when it fails |
| `Selection.AddressServer.Yield` | internal/server/dhcp4.go:76-87 | the sweeper and releases by the control API between two lock regions |
| `Selection.AddressServer.ListBindings` | internal/server/dhcp4.go:202-214 | all bindings in some order, and exactly the in-prefix addresses they reserve |
| `Selection.AddressServer.TakeReserved` | internal/server/dhcp4.go:223-234 | the reserved address unless another client holds it, across its two lock regions |
| `Selection.AddressServer.KeepOrPool` | internal/server/dhcp4.go:236-244 | keeps a found lease that is in the prefix and unreserved, otherwise turns to the pool |
| `Selection.AddressServer.SelectPool` | internal/server/dhcp4.go:246-259 | grants a requested free pool address, otherwise the first free one that is not the gateway or reserved |
| `Selection.AddressServer.SelectIP` | internal/server/dhcp4.go:195-260 | refines the selection function for some possible iteration orders, whatever sweeps, releases by the control API and clock readings come between its lock regions |
| `Selection.AddressServer.HandleMessage` | internal/server/dhcp4.go:167-185 | new table and reply are those of the message function, whose meaning for each message is stated by the rows of `LeaseRuns` and `LeaseSteps` without naming it: what a RELEASE, a DECLINE and a DHCPv6 RELEASE do to every address, and which reply a selection leads to |
| `Selection.AddressServer.PutStatic` | internal/server/dhcp4.go:97-108 | stores a valid binding under its id, or changes nothing |
| `Selection.AddressServer.ReplaceStatics` | internal/server/dhcp4.go:110-119 | all or nothing: the whole set when it is valid, otherwise the old one |
| `Selection.AddressServer.DeleteStatic` | internal/server/dhcp4.go:131-139 | removes the binding and reports whether it existed |
| `LeaseRuns.SelectSound` | internal/server/dhcp4.go:192-260 | a selection drops only expired and released leases and books at most one address, held by no other client, fitting the client's reservation or else in the prefix and unreserved; a keepable lease is kept |
| `LeaseRuns.NoTakeover` | internal/server/dhcp4.go:167-260 | in every state, no step changes a lease still unexpired when it ends, except one from its own client, a release or decline naming its address, or a release of it by the control API meanwhile |
| `LeaseRuns.HoldStep` | internal/server/dhcp4.go:223-259 | a holding survives every step that ends before it runs out and does not give it up; its holder can only extend it |
| `LeaseRuns.HoldRun` | internal/server/dhcp4.go:223-259 | the same over every run |
| `LeaseRuns.KeptLease` | internal/server/dhcp4.go:236-240 | a client with one unexpired lease, in place and not released meanwhile, is booked exactly there |
| `LeaseRuns.KeyDecidesMatch` | internal/server/binding.go:60-86 | clients with the same key have the same possible matches |
| `LeaseRuns.OneLeaseIffInPlace` | internal/server/dhcp4.go:223-259 | a booking leaves its client with one unexpired lease if and only if the leases it still has are where its best match puts them |
| `LeaseRuns.OneLeaseIffInTable` | internal/server/dhcp4.go:223-259 | with no release meanwhile, the same condition over the table before the selection |
| `LeaseRuns.SettledStep` | internal/server/dhcp4.go:195-260 | every step of anybody leaves a client with at most one lease, in place |
| `LeaseRuns.SettledRun` | internal/server/dhcp4.go:195-260 | the same over every run |
| `LeaseRuns.OneLeaseAlways` | internal/server/binding.go:141-153 | from an empty table every reachable state has at most one lease per client |
| `LeaseRuns.SelectsHeld` | internal/server/dhcp6.go:218-244 | a client that holds what its best match asks for is given it again, in DHCPv6 as in DHCPv4: a reserved address always, another one if the client holds nothing else |
| `LeaseRuns.Handshake` | internal/server/dhcp4.go:262-291 | an address granted to a client with a reservation, or with no second unexpired lease, is acknowledged, offered or assigned again before it runs out, whatever other clients, sweeps and times come between, unless that address is released or declined |
| `LeaseRuns.GrantedIsSelected` | internal/server/dhcp4.go:262-291 | an OFFER, ACK or DHCPv6 address is exactly the one selected for the sender |
| `LeaseRuns.ReservationsHold` | internal/server/dhcp4.go:209-234 | in every state a reserved address goes only to a client whose best match reserves it |
| `LeaseRuns.GrantsOnlyFree` | internal/server/dhcp4.go:226-251 | nobody is granted an address that another key holds |
| `LeaseRuns.PlaceholderIsNoClient` | internal/server/dhcp4.go:179-181 | no client shares a key with the placeholder of declined addresses |
| `LeaseRuns.Quarantine` | internal/server/dhcp4.go:176-183 | over every run a declined address is granted to nobody until its placeholder expires or the address is released or declined again |
| `LeaseRuns.GatewayNeverGranted` | internal/server/dhcp4.go:249-259 | if nothing reserves the gateway and no client lease starts there, no run grants it |
| `LeaseRuns.NoneMeansFull` | internal/server/dhcp4.go:242-259 | an unreserved client is turned away only if every pool address is skipped or actively leased |
| `LeaseRuns.PoolServes` | internal/server/dhcp4.go:242-259 | an unreserved client is served whenever the pool exceeds active leases, reservations and the gateway together |
| `LeaseRuns.RequestedHonoured` | internal/server/dhcp4.go:246-255 | a client with no reservation and no lease to keep gets the pool address it asks for unless that is the gateway, reserved or held by another |
| `LeaseRuns.LeastFreeGiven` | internal/server/dhcp4.go:257-259 | without a request, every pool address below the one it gets is the gateway, reserved or actively leased |
| `LeaseRuns.HandledBySelect` | internal/server/dhcp4.go:262-291 | a message that leads to a selection leaves the booked table and is answered with the selected address: an OFFER or a DHCPv6 address always, an ACK if and only if it is the address the REQUEST named, otherwise a NAK |
| `LeaseSteps.ReleaseFrees` | internal/server/dhcp4.go:172-175 | in every state a RELEASE leaves no lease at its address, whoever held it, and every other lease as it was unless it has expired or was released meanwhile |
| `LeaseSteps.Release6Frees` | internal/server/dhcp6.go:178-183 | a DHCPv6 RELEASE takes exactly the lease found for its client and is answered with a status; a client with one unexpired lease is left with none |
| `LeaseSteps.DeclineBlocks` | internal/server/dhcp4.go:176-183 | a DECLINE leaves a placeholder at its address for exactly one lease time and every other lease as it was; one without an address changes nothing |
| `LeaseSteps.OthersDrop` | internal/server/binding.go:162-201 | a sweep drops exactly the leases expired at its reading, a release by the control API exactly the lease at its address |
| `LeaseSteps.NamelessRefused` | internal/server/dhcp4.go:277-284 | a REQUEST that names no address in option 50 or ciaddr gets a NAK and changes nothing |
| `LeaseSteps.NoRequest6` | internal/server/dhcp6.go:218-244 | DHCPv6 selection never depends on a requested address |
| `LeaseSteps.FreeIsGranted` | internal/server/dhcp4.go:246-291 | in every state a client with neither a reservation nor a lease that asks for a pool address gets it in an OFFER or ACK unless it is the gateway, reserved or held by another |
| `LeaseSteps.ReleasedIsGranted` | internal/server/dhcp4.go:143-175 | an address given back by RELEASE or by the control API can be had by another client right away |
| `LeaseSteps.Released6IsGranted` | internal/server/dhcp6.go:178-183 | so can the address of a client that released its one lease in DHCPv6 |
| `LeaseSteps.DeclinedIsGrantedLater` | internal/server/dhcp4.go:176-183 | a declined address can be had again once one lease time has passed |
| `LeaseSteps.ReservedIsGranted` | internal/server/dhcp4.go:223-234 | a client whose best match reserves an address gets that address if nobody else holds it, and nothing if somebody does throughout |
| `LeaseLimits.StrandedLease` | internal/server/dhcp4.go:223-234 | for every configuration and table: a client whose lease is elsewhere gets a second one as soon as its reserved address is free |
| `LeaseLimits.ReservationStrandsLease` | internal/server/dhcp4.go:223-234 | such a client exists: one lease, and a reservation added after it was given |
| `LeaseLimits.HandshakeIff` | internal/server/dhcp4.go:223-291 | for every table: a granted address stands in every continuation if and only if the client's best matches agree and either reserve an address or leave it no other unexpired lease (or the selection outlasted the lease) |
| `LeaseLimits.Refusal` | internal/server/dhcp4.go:236-291 | without that condition the very next request by ciaddr can get a NAK |
| `LeaseLimits.HandshakeIffInPlace` | internal/server/dhcp4.go:223-291 | for a client with at most one lease: a granted address stands if and only if its best matches agree and it is reserved or its unexpired lease is one it may keep |
| `LeaseLimits.HandshakeIffInTable` | internal/server/dhcp4.go:223-291 | with no release meanwhile, the same condition over the table before the message |
| `LeaseLimits.TwoPhaseIff` | internal/server/dhcp4.go:246-291 | for every table: a request by option 50 from a client silent since its grant is always acknowledged if and only if its best matches agree and it is reserved, or every other unexpired lease it has may not be kept while the address can be taken from the pool (or the selection outlasted the lease, or the address is unspecified) |
| `LeaseLimits.TwoPhaseRefusal` | internal/server/dhcp4.go:246-291 | without that condition such a request can get a NAK at once |
| `LeaseLimits.HandshakeNeedsLeaseInPlace` | internal/server/dhcp4.go:236-259 | one lease is not enough: a client whose only lease lies outside the prefix gets an offer that does not stand |
| `LeaseLimits.AmbiguityBreaksHandshake` | internal/server/binding.go:57-86 | from every state and for every configuration in which tied best matches disagree, a reserved address is offered and that offer does not stand |
| `LeaseRestart.FirstFreeAgrees` | internal/server/binding.go:234-252 | tables with the same unexpired leases allocate the same address |
| `LeaseRestart.ByClientAgrees` | internal/server/binding.go:142-153 | and give byClient the same possible answers |
| `LeaseRestart.SelectAgrees` | internal/server/dhcp4.go:195-260 | and select and book alike |
| `LeaseRestart.HandleAgrees` | internal/server/dhcp4.go:167-185 | and answer every message alike, staying alike |
| `LeaseRestart.RunAgrees` | internal/server/dhcp4.go:152-186 | and admit the same runs with the same replies |
| `LeaseRestart.SweepInvisible` | internal/server/binding.go:187-201 | a sweep at any moment changes no later reply |
| `LeaseRestart.LoadSnapshot` | internal/server/binding.go:203-229 | loading a snapshot restores exactly the unexpired leases |
| `LeaseRestart.SnapshotAgrees` | internal/server/binding.go:203-216 | tables with the same unexpired leases are saved as the same list |
| `LeaseRestart.RestartInvisible` | internal/server/iface.go:593-619 | a restart through snapshot and load changes no later reply |
| `Checksum.ChecksumAdd` | internal/packet/packet.go:31-40 | adds the big-endian words, an odd byte padded, modulo 2^32 |
| `Checksum.ChecksumFinish` | internal/packet/packet.go:42-47 | terminates and returns the complement of the sum's one's-complement representative |
| `Checksum.FoldStep` | internal/packet/packet.go:43-45 | folding shrinks the sum and keeps its representative |
| `Checksum.PseudoHeaderSum` | internal/packet/packet.go:49-57 | the sum of both addresses, protocol and length, modulo 2^32 |
| `Checksum.OnesSumResidue` | internal/packet/packet.go:30-47 | deferring the carries gives the one's-complement sum of RFC 1071, which adds each carry at once |
| `Checksum.NoWrap` | internal/packet/packet.go:50-57 | the 32-bit accumulator does not wrap for any segment up to 65535 bytes |
| `Checksum.FinishVerifies` | internal/packet/packet.go:42-88 | adding the checksum, or all ones in its place when it is zero, makes the sum all ones |
| `Frames.FillIp4` | internal/packet/packet.go:69-76 | writes the IPv4 header with its checksum and leaves the rest of the buffer alone |
| `Frames.FillUdp` | internal/packet/packet.go:78-89 | writes ports, length, payload and a checksum that is never zero |
| `Frames.CraftUDP4` | internal/packet/packet.go:59-92 | every byte of the buffer by its place: destination then source hardware address, ethertype, version, header length, total length, hops, protocol, addresses, ports, UDP length and payload; the two checksums are those of the layout |
| `Frames.CraftUDP6` | internal/packet/packet.go:94-126 | the same for IPv6: version and zero flow label, payload length, next header 17 and hop limit 64 |
| `Frames.CraftICMP6` | internal/packet/packet.go:128-154 | the same for ICMPv6 with the given hop limit, the message unchanged but for its checksum field |
| `FrameChecksums.Ip4HeaderVerifies` | internal/packet/packet.go:69-76 | the one's-complement sum of every emitted IPv4 header is all ones |
| `FrameChecksums.Udp4Verifies` | internal/packet/packet.go:78-89 | a receiver's sum over the RFC 768 pseudo-header and the segment is all ones, and the checksum is not sent as zero |
| `FrameChecksums.Udp6Verifies` | internal/packet/packet.go:112-123 | the same over the pseudo-header of section 8.1 of RFC 8200 |
| `FrameChecksums.Icmp6Verifies` | internal/packet/packet.go:146-151 | the same for ICMPv6, whatever the caller left in the checksum field |
| `FrameChecksums.Udp4FrameVerifies` | internal/packet/packet.go:59-92 | on the whole frame: header and segment verify with the addresses and lengths the frame itself carries |
| `FrameChecksums.Udp6FrameVerifies` | internal/packet/packet.go:94-126 | the same over IPv6 |
| `FrameChecksums.Icmp6FrameVerifies` | internal/packet/packet.go:128-154 | the same for ICMPv6 |
| `Parsing.ParseIff` | internal/packet/packet.go:174-253 | for every frame, over its bytes: it parses if and only if it is a sound, unfragmented UDP/IPv4, UDP/IPv6 or ICMPv6 packet that fits, and then with the fields at their places and anything after the packet cut off |
| `Parsing.Udp4RoundTrip` | internal/packet/packet.go:174-214 | parsing a crafted frame returns its fields and payload if and only if the payload has at most 65507 bytes |
| `Parsing.Udp6RoundTrip` | internal/packet/packet.go:216-241 | the same with at most 65527 bytes |
| `Parsing.Icmp6RoundTrip` | internal/packet/packet.go:216-249 | the same for messages of 4 to 65535 bytes, apart from the checksum bytes |
| `Filter.Ipv6Block` | internal/transport/afpacket.go:29-36 | what the IPv6 half of the program admits |
| `Filter.Ipv4Block` | internal/transport/afpacket.go:37-46 | what the IPv4 half admits, with options in the header |
| `Filter.FilterMeaning` | internal/transport/afpacket.go:17-48 | for every frame of every length: tagged frames are dropped, an untagged one is admitted, with 262144 bytes, if and only if it looks like DHCPv4, DHCPv6 or a router solicitation |
| `Filter.FilterEqualsDispatch` | internal/server/iface.go:357-376 | for every untagged frame that parses, the filter admits it if and only if exactly one handler consumes it, and never more than one would |
| `Filter.AdmittedIsConsumed` | internal/server/iface.go:357-376 | every admitted frame is either a sound packet, consumed by exactly one handler, or does not parse |
| `Filter.DeliveredIff` | internal/server/iface.go:357-376 | for every frame and handler, over the bytes: which frames pass the filter, parse and reach that handler |
| `Deprecation.AgeIsWindow` | internal/server/ra.go:146-172 | the age a countdown encodes is below n exactly when the prefix was live within the last n builds |
| `Deprecation.RaServer.CollectLive` | internal/server/ra.go:140-145 | the masked served prefixes of length 64 |
| `Deprecation.RaServer.QueueVanished` | internal/server/ra.go:148-155 | queues exactly the prefixes live in the last build and not now, leaving counts already running |
| `Deprecation.RaServer.EmitPending` | internal/server/ra.go:161-168 | lists every pending prefix and counts each down by one, dropping those at the end |
| `Deprecation.RaServer.CurrentPrefixes` | internal/server/ra.go:137-174 | over every history of builds: alive iff live now, deprecated iff not live now but live in one of the three builds before, absent otherwise |
| `Deprecation.WithdrawnThreeTimes` | internal/server/ra.go:55-58 | a prefix gone for good is withdrawn in exactly three advertisements and then absent |
| `RaOptions.BuildHeader` | internal/server/ra.go:199-210 | type, hop limit, flags and router lifetime in their places |
| `RaOptions.BuildFront` | internal/server/ra.go:212-235 | the source option and one option for each prefix, each once, in some order |
| `RaOptions.BuildServers` | internal/server/ra.go:243-246 | the servers one after another in order |
| `RaOptions.BuildBody` | internal/server/ra.go:193-248 | the whole message for some iteration order of the prefixes |
| `RaOptions.PrefixOptionDecodes` | internal/server/ra.go:219-235 | a prefix option reads back with its length, flags, address and alive or zero lifetimes |
| `RaOptions.WalkConcat` | internal/server/ra.go:212-248 | a host walking well-formed options meets them one by one |
| `RaOptions.ServersReadBack` | internal/server/ra.go:237-248 | the server option reads back if and only if there are at most 127 servers |
| `RaOptions.OptionsReadBack` | internal/server/ra.go:212-248 | the walk ends exactly at the end and recovers source, prefixes and servers, if and only if there are at most 127 servers |
| `RaOptions.HostReadsAdvertisement` | internal/server/ra.go:193-252 | end to end through the crafted frame: the packet has hop limit 255, a host parses an advertisement of code 0 with hop limit 64, our flags and lifetime, and walks exactly our address, every prefix with its flags and lifetimes, and the servers |
| `RaOptions.TransmitRA` | internal/server/ra.go:193-252 | nothing without a link-local address, otherwise the advertisement of all prefixes in some order, from that address, with hop limit 255, to the given destination |
| `PdEvents.BestIsFirstShortest` | internal/pd/client.go:567-578 | the chosen prefix is live, no live one is shorter, and none before it is as short; none is chosen only if none is live |
| `PdEvents.DelegatesMeans` | internal/pd/client.go:556-602 | a reply is usable if and only if its IA is not refused and the first of its shortest live prefixes has an address and a possible length; the binding is that prefix, masked, from now for its valid lifetime |
| `PdEvents.TimersInOrder` | internal/pd/client.go:415-417 | T1 is half of the lifetime and T2 four fifths, and they come in order before expiry |
| `PdEvents.PatienceDoubles` | internal/pd/client.go:488-518 | the k-th repetition is waited for 2^k times the first wait, at most the maximum |
| `PdEvents.ExchangeMeans` | internal/pd/client.go:480-520 | in a whole exchange all copies are one message; an answer is the message just heard, of the awaited type and transaction; without one no such message was heard, every copy was waited for until its doubling deadline or a failed read, and all copies went out unless sending was blocked |
| `PdTrace.ResultsAreExchanged` | internal/pd/client.go:480-520 | every result the client acts on ends a whole exchange |
| `PdTrace.CallbacksAlternate` | internal/pd/client.go:64-65 | at every point of an accepted trace the callbacks alternate gain and loss, each loss naming the prefix gained before, if and only if the trace does not start with a delegation restored unserved or holds no callback yet; with that unreported gain in front they always alternate |
| `PdTrace.LossWithoutGain` | internal/pd/client.go:194-204 | the failing input: a release right after an unserved restart makes a loss the first callback |
| `PdReasons.WithdrawalJustified` | internal/pd/client.go:206-376 | every withdrawal directly follows the adoption of a reply carrying another prefix, or the giving up of that prefix after a request of the control API (with a known server after a whole RELEASE exchange with it), after a refused confirmation begun with a usable uplink (whole exchanges of RENEW to the known server and then REBIND, both without a usable reply), or at a clock reading past its expiry |
| `PdReasons.MessagesCalledFor` | internal/pd/client.go:206-469 | every message has its reason and addressee: RENEW and RELEASE go to the sender of the reply the delegation came from, REQUEST to the sender of the ADVERTISE, the rest to any server; SOLICIT only in a pass of the session that finds nothing unexpired or whose delegation was refused, RELEASE only on request, RENEW and REBIND when due or in a confirmation, there REBIND only after RENEW to a known server failed |
| `PdReasons.ReadingDecides` | internal/pd/client.go:414-462 | a clock reading while bound is followed by a drop if and only if the delegation has expired, by the due exchange if and only if T1 has passed and it has not, and otherwise by a sleep that ends in a wake-up, a release or a stop |
| `PdReasons.UnexpiredIsConfirmed` | internal/pd/client.go:321-442 | a delegation unexpired at the reading of a session pass, or before T1 after a wake-up, is judged on the uplink next; its confirmation follows if and only if the uplink is usable, by RENEW if its server is known and by REBIND otherwise |
| `PdReasons.FreeIsSolicited` | internal/pd/client.go:317-344 | a session pass that finds nothing unexpired begins a SOLICIT exchange next, and only such a pass does |
| `PdReasons.DropDecides` | internal/pd/client.go:194-350 | a dropped delegation is withdrawn next; a SOLICIT follows at once if and only if it was refused in a session pass, and otherwise the session goes on |
| `PdReasons.ResultDecides` | internal/pd/client.go:359-469 | what follows every result of an exchange: adoption if and only if it delegates a prefix; REQUEST after an ADVERTISE that names its sender; REBIND after a failed RENEW of a confirmation and a drop after that; a look at the clock after a failed refresh; the drop after RELEASE; a new socket after a failed SOLICIT or REQUEST |
| `PdReasons.RecheckDecides` | internal/pd/client.go:466-469 | after a failed refresh the delegation is dropped if and only if it has expired, and held on otherwise |
| `PdReasons.AdoptedIsHeld` | internal/pd/client.go:333-414 | after an adoption and its callbacks the client enters the loop that holds the delegation and reads the clock there, unless stopped or released |
| `PdReasons.SocketIsUsed` | internal/pd/client.go:233-317 | an open socket leads into the session and a pass of it, unless stopped or released; without one the next is tried |
| `PdReasons.ReleaseComesFirst` | internal/pd/client.go:206-231 | no pass of a session, reading while bound or wake-up is acted on while a release request is pending |
| `PdTrace.MutedUntilChange` | internal/pd/client.go:586-601 | after a restart that kept the delegation unserved, service is off exactly until the delegation is dropped or a reply carries another prefix |
| `PdClient.PdIface.OnPDChange` | internal/server/iface.go:437-472 | a gain puts address, served prefix and, in routed mode, exactly the rule pair, subnet route and mirror of the composed prefix in place; the loss leaves nothing derived from it; only the address last announced is ever taken off |
| `PdClient.PdClient.UplinkReady` | internal/pd/client.go:288-310 | true exactly for an uplink found up with a link-local address that is not tentative, every lookup error counting as not ready |
| `PdClient.PdClient.ServedPrefix` | internal/server/iface.go:259-272 | envV6 reports a prefix exactly while the client holds a delegation that was announced: its masked base OR-ed with the suffix, at the served length |
| `PdClient.PdClient.AdvertisedPrefixes` | internal/server/iface.go:279-287 | advertisements see that one prefix while it is served and none otherwise |
| `PdClient.PdClient.DropPrefix` | internal/pd/client.go:194-204 | forgets binding and server and withdraws the prefix exactly if one was held |
| `PdClient.PdClient.ReadGrant` | internal/pd/client.go:558-584 | the usable delegation of a reply, masked and well formed, or none on any defect |
| `PdClient.PdClient.PickPrefix` | internal/pd/client.go:567-575 | the loop picks the first shortest live prefix |
| `PdClient.PdClient.Adopt` | internal/pd/client.go:586-601 | takes the binding over; the callbacks are exactly the loss of a different old prefix and then the gain of the new one, and none when the prefix is the same |
| `PdClient.PdClient.ApplyReply` | internal/pd/client.go:556-602 | true exactly for a reply that delegates a prefix: the first shortest live one, masked, becomes the binding from now for its lifetime; otherwise nothing changes |
| `PdClient.PdClient.Receive` | internal/pd/client.go:497-513 | returns the first message heard with the expected type and our transaction id; without one, only once the deadline has passed or a read has failed |
| `PdClient.PdClient.Exchange` | internal/pd/client.go:480-520 | a whole exchange of one message with the held prefix as hint: the answer that was heard, or none after all copies and their waits, or when stop or a local error blocks sending |
| `PdClient.PdClient.MaybeRelease` | internal/pd/client.go:206-231 | a pending request is consumed and a held delegation does not survive it; it goes only after a request was taken and, with a known server, after a RELEASE exchange with that server |
| `PdClient.PdClient.ConfirmExisting` | internal/pd/client.go:356-376 | true only with a binding made during the call; false only after RENEW to a known server and then REBIND both failed, with the binding kept |
| `PdClient.PdClient.ConfirmOnLink` | internal/pd/client.go:325-342 | the uplink is looked at first; kept, untouched and unasked exactly if it is not usable, otherwise refreshed when confirmed and withdrawn when refused |
| `PdClient.PdClient.AcquireFresh` | internal/pd/client.go:378-396 | a SOLICIT exchange first; true only after a REQUEST to the sender of the ADVERTISE and with a binding made during the call, false with the old one kept |
| `PdClient.PdClient.RenewOrRebind` | internal/pd/client.go:451-469 | one exchange, RENEW to the known server until T2 and REBIND otherwise; lost if and only if it gave nothing and the delegation has expired at the reading after it |
| `PdClient.PdClient.BoundLoop` | internal/pd/client.go:398-472 | entered with a delegation; keeps the trace accepted and the served prefix in step, and returns only without a delegation, back in the session, or stopped |
| `PdClient.PdClient.SessionPass` | internal/pd/client.go:317-353 | the clock is read first; with nothing unexpired a whole SOLICIT exchange follows at once, otherwise the uplink is looked at; the pass ends back in the session, stopped, or with the socket to be opened again |
| `PdClient.PdClient.SessionLoop` | internal/pd/client.go:312-354 | keeps the trace accepted and the served prefix in step through all passes of a session, release requests taken before each of them |
| `PdClient.PdClient.Run` | internal/pd/client.go:233-250 | over every run the trace is accepted, nothing is owed, the monitor knows delegation, server and pending request, and interface, address and kernel table serve exactly the delegation held |
| `PdClient.PdClient.Restore` | internal/server/iface.go:620-626 | after a restart the delegation is kept unless its prefix is invalid or it has expired at the first reading, held without being served if and only if its expiry lies between the two readings, and client and interface disagree beyond that if and only if an invalid prefix is announced |
| `PdAdverts.Advertise` | internal/server/ra.go:137-174 | one advertisement for the interface of a client: its report is that of the builds so far and the /64 served now |
| `PdAdverts.LossIsAdvertised` | internal/server/ra.go:55-58 | over every run with advertisements built at any moments: a lost prefix was alive in the last one before the loss and, until it is gained again, is listed with zero lifetimes in the next three and then not at all |
| `Sysctl.Registry.AcquirePath` | internal/pdroute/sysctl.go:63-85 | counts a reference; the first one remembers the value found and writes the wanted one, read and write errors included |
| `Sysctl.Registry.ReleasePath` | internal/pdroute/sysctl.go:87-111 | the last reference restores the remembered value, unless somebody else's value is there |
| `Sysctl.AcquireAccount` | internal/pdroute/sysctl.go:63-85 | an acquire keeps the account of every path: count, remembered value, kernel value |
| `Sysctl.ReleaseAccount` | internal/pdroute/sysctl.go:87-111 | a release keeps it too |
| `Sysctl.AdvanceInv` | internal/pdroute/pdroute.go:91-96 | each step of any bridge keeps all accounts equal to the references bridges hold |
| `Sysctl.RunInv` | internal/pdroute/pdroute.go:80-99 | so does every interleaving of any number of bridges |
| `Sysctl.HeldReads` | internal/pdroute/sysctl.go:37-53 | in every state that keeps the registry's invariant a held, writable accept_ra of 1 reads 2 and a held forwarding of 0 reads 1; every other value is untouched |
| `Sysctl.ForeignValueWins` | internal/pdroute/sysctl.go:102-107 | a value somebody else writes while a path is held survives every use of the registry up to and including the last release |
| `Sysctl.OwnValueUndone` | internal/pdroute/sysctl.go:108-110 | our own value is replaced by the one found when the last reference goes |
| `Sysctl.ReadonlyUplinkIsUnsafe` | internal/pdroute/sysctl.go:78-82 | an exposed uplink whose accept_ra cannot be written is left deaf by starting its bridge |
| `Sysctl.ServedUplinkIsUnsafe` | internal/pdroute/pdroute.go:94-96 | an exposed uplink served by a bridge with another uplink is left deaf by starting that bridge |
| `Sysctl.HostHearsRAsIffSafe` | internal/pdroute/pdroute.go:91-96 | no interleaving ever has forwarding turned on for an uplink whose accept_ra is 1, if and only if the configuration is safe |
| `Sysctl.AllRestored` | internal/pdroute/pdroute.go:161-177 | once every started bridge has stopped, every sysctl has its original value and no entry is left |
| `PolicyRoutes.Routes.WipeRules` | internal/pdroute/pdroute.go:198-224 | deletes exactly our rules that do not name the kept prefix, and keeps the others in every intermediate state |
| `PolicyRoutes.Routes.FlushTableExcept` | internal/pdroute/pdroute.go:242-259 | empties our table except the gateway-less route to the kept prefix |
| `PolicyRoutes.Routes.EnsureStarted` | internal/pdroute/pdroute.go:80-99 | the first start empties our table whatever a crash left there and then acquires accept_ra and forwarding of the uplink and forwarding of the interface, in the order of the sysctl theorems; later ones change nothing |
| `PolicyRoutes.Routes.RemoveDefault` | internal/pdroute/pdroute.go:367-377 | removes exactly our default routes |
| `PolicyRoutes.Routes.BestDefault` | internal/pdroute/pdroute.go:328-340 | the loop computes the scan over the dump |
| `PolicyRoutes.ScanChooses` | internal/pdroute/pdroute.go:328-340 | for every dump order the scan finds a candidate that none beats; none only without candidates |
| `PolicyRoutes.EveryChoiceFound` | internal/pdroute/pdroute.go:328-340 | every such candidate is found for some dump order |
| `PolicyRoutes.ChosenIsMaximal` | internal/pdroute/pdroute.go:358-365 | the possible choices are exactly the candidates that are RA-learned if any is, with the lowest metric of their kind |
| `PolicyRoutes.Routes.SyncDefault` | internal/pdroute/pdroute.go:306-356 | our default becomes the mirror of a best candidate, or goes when there is none or the uplink is gone |
| `PolicyRoutes.Routes.SwapRules` | internal/pdroute/pdroute.go:130-137 | ends with exactly the new pair, and every intermediate state has all old rules or the new pair |
| `PolicyRoutes.Routes.Install` | internal/pdroute/pdroute.go:101-142 | with the interface present, field by field: both rules of the prefix and no other rule in our table; a gateway-less route to its network on the served interface; and exactly if the uplink has a default, one default on the uplink through the gateway of a best one; other tables are untouched; a live pair is replaced without a gap |
| `PolicyRoutes.Routes.PlumbedServes` | internal/pdroute/pdroute.go:101-142 | the same fields hold whenever the table is plumbed for a prefix, as it is throughout a run of the client |
| `PolicyRoutes.Routes.Clear` | internal/pdroute/pdroute.go:144-159 | no rule and no route of ours is left, other tables are untouched |
| `PolicyRoutes.Routes.Stop` | internal/pdroute/pdroute.go:161-177 | the same, for good; then releases forwarding of both interfaces and accept_ra, in the order of the sysctl theorems, if it had started |
| `Mirrors.CandidatesForeign` | internal/pdroute/pdroute.go:331-336 | every table chooses among the same routes, the foreign defaults of the uplink |
| `Mirrors.SyncStep` | internal/pdroute/pdroute.go:306-356 | a sync touches no foreign route and no other table's default, and mirrors a best foreign default |
| `Mirrors.MirrorsFollowForeign` | internal/pdroute/pdroute.go:306-365 | after any order of syncs by any bridges, every table that synced mirrors a best foreign default or has none |
| `Mirrors.ResyncStableIff` | internal/pdroute/pdroute.go:337-355 | repeating a sync changes nothing for any dump order if and only if the best candidates share their gateway |
| `Mirrors.TwoRoutersFlap` | internal/pdroute/pdroute.go:358-365 | with two routers of the same metric no sync is ever stable |

## Left out

- Sockets, netlink, `/proc`, iptables and file writing: foreign effects; kernel state is kept as sets of rules and routes and a map of sysctl values.
- `internal/dnsfwd`, `internal/api`, `internal/ifwatch`, `internal/config`, `cmd/bridgedhcp`: DNS forwarding, HTTP, netlink plumbing, configuration and the command line hand data to the parts modelled here and keep no state these depend on.
- `internal/server/state.go`: writing and debouncing are I/O; the snapshot and load pair is modelled.
- Byte-level DHCPv4 and DHCPv6 encoding: it belongs to a library; messages are datatypes.
- Whether a DHCPv6 reply carries an IA_NA: the address is selected and booked either way.
- Frames for a server that is disabled or has no prefix, malformed DHCP messages and INFORMATION-REQUEST: they change no lease.
- Hooks that mark state dirty, events, logs and status strings.
- The final advertisement at shutdown and the timing of advertisements: a single build without history.
- Case folding outside ASCII in `strings.EqualFold` and `strings.ToLower`.
- Selection.AddressServer.SelectIP: prefix, pool and statics are read once per selection, as in the source; their changes between messages are not steps of a run, and the run theorems fix them.
- Leases.LeaseTable.Release: its answer, unlike every address decision, does see whether a sweep has removed an expired lease.
- PdClient.PdClient.Run: the source loops without end; the model takes the number of passes to observe as a budget, so every finite part of a run is covered and nothing is said about what must happen eventually.
- PdClient.PdClient.Exchange: elapsed times and transaction ids being fresh are not modelled; an observed run that ends within a wait ends with a failed read.
- PdEvents.TimersInOrder: times are unbounded integers; the source computes four times the lifetime in 64 bits.
- PdClient.PdIface.OnPDChange: addresses and routes are assumed to be added and removed successfully; a reader between the binding's update and the callback is not modelled, nor are changes of foreign routes and mirror syncs during a run of the client (module Mirrors has those).
- PdClient.PdClient.Restore: a run that goes on from an announced invalid prefix is not followed further than its first gain; a saved prefix is IPv6, as the client only ever holds those; routes are started before the restore; the source starts them in the restore's Install or right after, which wipes the same leftovers first.
- PdClient.PdClient.MaybeRelease: a request that arrives at any time is recorded at the moment the client next looks for one.
- PolicyRoutes.Routes.Install: kernel calls succeed, and the prefix is not of length zero, which the served length of a delegation never is (internal/server/iface.go:87-89).
- Sysctl.HostHearsRAsIffSafe: no writer other than the registry.
- RaOptions.TransmitRA: transmission itself, the choice of the destination, and the freshness of the live set, which the source reads before its lock.
