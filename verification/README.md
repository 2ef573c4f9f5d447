# BlakTail coordinator: a verified model

BlakTail is a WireGuard overlay network. Its coordinator is a set of small state machines over
database tables, with some address arithmetic and a rule compiler. Its agent gateway meters
language-model requests against quotas that the coordinator keeps. This project models those
parts in Dafny and proves what they promise.

A table is a map. A guarded `UPDATE` or `INSERT` is one atomic step, and a read that happened
earlier is a step of its own. A protocol is a state machine, and its theorems are about every
run (`ValidRun`, `Final`). Code that updates fields in place is also written as a class or a
method with loops, whose postcondition ties it to the functions the theorems are about.

| modules | what they model |
|---|---|
| `Options`, `Bits`, `Cidr`, `CidrText`, `Ipam` | masks, blocks, CIDR strings, pools, reservation checks |
| `Complement`, `ForwardService`, `Forwarding`, `ForwardMeaning` | the forward-filter compiler and its meaning |
| `AddressPool`, `AddressRuns`, `AddressStore` | overlay address leases |
| `Quota`, `QuotaTheorems`, `QuotaStore`, `GatewayRequest`, `Providers` | quotas, settlement, output clamp, provider choice |
| `Drafts`, `DraftStore` | change drafts with versions and base etags |
| `AuditChain`, `KeysetExport` | the audit hash chain, keyset-paged exports |
| `CivilDate`, `Timestamp` | the export's calendar arithmetic and RFC 3339 text |
| `FlowDirectory`, `FlowEvaluator` | address resolution and the memoised policy evaluator |
| `ConnectorAddress`, `Connectors`, `ConnectorRuns`, `ConnectorStore` | connector route leases |
| `SseTap` | the streaming usage tap |

Some promises hold only under a condition. Each has its exact condition, stated on what a caller
can check beforehand, and an input that fails:

* The operator view's next free address is the next enrolment's in every run
  (`ViewIsExactInRuns`). On an arbitrary snapshot it is exactly when no orphan lease, one whose
  device exists but does not list it, comes before every vacant host (`NextFreeIsNextHost`,
  `OrphanIsOffered`).
* The listed provider of a model is the chosen one exactly when it is onshore or no onshore
  provider serves the model: the list goes by name, the choice prefers onshore
  (`ListedProviderIsChosen`, `OnshoreIsChosenInstead`).
* After a grant the day is within the quotas in force unless a policy written between the read
  and the increment lowered them; then it is exactly when the new quotas cover the reservation
  (`GrantIsWithinQuotasInForce`, `GrantAfterPolicyChange`, `LoweredQuotaIsOverrun`).
* An intact audit report proves the retained rows honest exactly when the first row's previous
  hash is not stored as empty text, which hashes like a missing one (`IntactRowsAreHonest`,
  `BlankPreviousIsAccepted`).
* The evaluator's cache is invisible exactly when nothing else that an address resolves to carries
  the identifier of a known device, because the key leaves out the source's kind
  (`MemoIsTransparent`; `LoadedConfusesIff` says it on the rows; `SharedIdConfuses`).
* A connector report announces every route it removes exactly when it is bound to bump the
  revision or it renews every expired row; its sweep of expired rows covers the organisation and
  is silent (`SweepIsSilent`, `SilentWithdrawal`).
* Chunking a stream is invisible for every way of reading lines exactly when no complete line is
  longer than the buffer limit and the unfinished rest exceeds it by at most one byte
  (`ChunkingIsInvisibleIff`, `BadSplit`). A reader that ignores the overlong line is not harmed.

The grant that flow events record for a network resource is the one its forward filter enforces,
for every resource the write check lets in (`StorableAgreesWithFilter`); `GrantsIsForwardFilter`
says for which other rows it would be.

## Model

| member | source | states |
|---|---|---|
| `Cidr.ContainsIsMembership` | blaktail-coord/src/ipam.rs:107-127 | comparing masked addresses is membership in the block's interval, for 32 and 128 bits |
| `Cidr.ParseKeepsMembers` | blaktail-coord/src/ipam.rs:63-104 | a prefix is refused exactly when too long; otherwise the masked block is aligned and has the same addresses as the text named |
| `Cidr.NestedOrDisjoint` | blaktail-coord/src/ipam.rs:107-137 | two blocks that share an address are nested, the longer inside the shorter |
| `Cidr.OverlapIsMeet` | blaktail-coord/src/ipam.rs:130-137 | `pools_overlap` is true exactly when the blocks share an address |
| `Cidr.WithinIsSubset` | blaktail-coord/src/resources.rs:303-312 | `cidr_within` is inclusion of address sets |
| `Cidr.NetworkByMembers` | blaktail-coord/src/ipam.rs:63-104 | two masked blocks with the same addresses are equal, so canonical texts name address sets uniquely |
| `Ipam.UsableRangeIsInterior` | blaktail-coord/src/ipam.rs:197-206 | usable hosts exclude both ends of a block, except in a /31 or /32 |
| `Ipam.ValidateReservation` | blaktail-coord/src/ipam.rs:210-267 | the early-return loops reach the verdict of the first pool that has the address |
| `Ipam.AcceptedMeaning` | blaktail-coord/src/ipam.rs:210-267 | a reservation is accepted exactly when the first pool with the address has no matching or unreadable exclusion and the address is usable there |
| `Ipam.PoolMeaning` | blaktail-coord/src/address_pool.rs:65-94 | a device pool parses exactly when it is an aligned /20 to /24 inside 100.64.0.0/10 |
| `Ipam.DefaultPoolIsPool` | blaktail-coord/src/address_pool.rs:35-156 | the pool of an organisation that chose none parses |
| `Ipam.HostsMeaning` | blaktail-coord/src/address_pool.rs:95-119 | `hosts` enumerates the block without its ends in order, `usable` counts it, `contains_ip` decides it |
| `Ipam.AcceptsExactlyHosts` | blaktail-coord/src/address_pool.rs:833-853 | the reservation check accepts exactly the addresses allocation enumerates |
| `Ipam.OffsetsAreDistinct` | blaktail-coord/src/address_pool.rs:141-144 | every host has an IPv6 offset below 2^22, and different hosts of any two pools have different ones |
| `Complement.LeafIsDecided` | blaktail-coord/src/forwarding.rs:234-260 | a block that must be split has a free bit, so the shift never underflows and the recursion ends |
| `Complement.Split` | blaktail-coord/src/forwarding.rs:234-260 | the recursion appends exactly the parts of the block |
| `Complement.ComplementOf` | blaktail-coord/src/forwarding.rs:208-225 | the method yields the complement of the prefixes of its family |
| `Complement.PartsCover` | blaktail-coord/src/forwarding.rs:234-260 | an address of the block is in a part exactly when no excluded prefix has it |
| `Complement.PartsDisjoint` | blaktail-coord/src/forwarding.rs:234-260 | the parts ascend and no two share an address |
| `Complement.PartsAreMaximal` | blaktail-coord/src/forwarding.rs:234-260 | every block inside that avoids the excluded prefixes lies inside one part |
| `Complement.ComplementIsExact` | blaktail-coord/src/forwarding.rs:208-260 | for both families and any exclusions, the aligned and disjoint output holds exactly the addresses not excluded |
| `Complement.ComplementIsMaximal` | blaktail-coord/src/forwarding.rs:208-260 | a block lies inside one output block exactly when it meets no excluded prefix |
| `Complement.ComplementWithin` | blaktail-coord/src/forwarding.rs:208-260 | the same, by the containment test the filter applies |
| `Complement.ComplementIsFewest` | blaktail-coord/src/forwarding.rs:208-260 | no list of CIDRs with the same addresses is shorter |
| `ForwardService.MergeAdmitsEither` | blaktail-coord/src/forwarding.rs:53-89 | a merged service admits exactly what one of its parts admits |
| `ForwardService.EmptyAdmitsNothing` | blaktail-coord/src/forwarding.rs:49-89 | a service is empty exactly when it admits no protocol and port |
| `Forwarding.Grants` | blaktail-coord/src/forwarding.rs:270-288 | the loops build the grant map |
| `Forwarding.GrantMapMeaning` | blaktail-coord/src/forwarding.rs:270-288 | the map has exactly the granted prefixes, each admitting the union of its grants |
| `Forwarding.FoldMeaning` | blaktail-coord/src/forwarding.rs:353-367 | the service of a named host admits exactly what one of its matching rules admits |
| `Forwarding.HostServices` | blaktail-coord/src/forwarding.rs:353-367 | one pass over the rules gives the denied and the allowed service |
| `Forwarding.HostRules` | blaktail-coord/src/forwarding.rs:344-379 | a host yields a deny rule when routed, and an allow rule only when routed by a grant that is not the exit route |
| `Forwarding.CompileHosts` | blaktail-coord/src/forwarding.rs:343-379 | the lists hold exactly the rules of all named hosts |
| `Forwarding.DenyUngranted` | blaktail-coord/src/forwarding.rs:318-342 | an exit client gets a deny rule for exactly each carried prefix it has no grant for |
| `Forwarding.GrantRules` | blaktail-coord/src/forwarding.rs:380-388 | a grant becomes its own rule, and a default route the complement of the carried prefixes |
| `Forwarding.AllowGrants` | blaktail-coord/src/forwarding.rs:380-388 | the allow list holds exactly the rules of all grants |
| `Forwarding.CompileClient` | blaktail-coord/src/forwarding.rs:290-391 | exactly the client's deny and allow rules are appended, and nothing when it may not reach the router |
| `ForwardMeaning.PermitsIsMayForward` | blaktail-coord/src/forwarding.rs:270-569 | the compiled lists, read deny first, permit exactly what grants, named hosts and the exit route say on the inputs |
| `ForwardMeaning.ClientFilter` | blaktail-coord/src/forwarding.rs:571-631 | without an active router row the filter is empty; otherwise it permits exactly what the inputs say |
| `ForwardMeaning.ExitNeverWidens` | blaktail-coord/src/forwarding.rs:318-391 | what is permitted to a host in a carried prefix is admitted by a grant other than the exit route, or by a rule naming a host inside one |
| `ForwardMeaning.UngrantedIsRefused` | blaktail-coord/src/forwarding.rs:318-342 | an exit client is refused everything in a carried prefix it has no grant for |
| `ForwardMeaning.NoExitWithoutSelection` | blaktail-coord/src/forwarding.rs:270-288 | a client that did not select the router as exit reaches only what another grant carries |
| `AddressPool.FirstOutsideMeaning` | blaktail-coord/src/address_pool.rs:432-439 | the search finds the first host not to be avoided, and nothing exactly when all are |
| `AddressPool.NextHostIsFirstVacant` | blaktail-coord/src/address_pool.rs:327-452 | with releases stamped, an enrolment gets the first host that nothing lists, reserves or still holds, and exhaustion means there is none |
| `AddressPool.NextFreeIsNextHost` | blaktail-coord/src/address_pool.rs:572-769 | on any snapshot the view's next free address is the next enrolment's, or absent with it, exactly when no orphan lease comes before every vacant host |
| `AddressPool.OrphanIsOffered` | blaktail-coord/src/address_pool.rs:572-769 | a snapshot where the view offers an orphan and the enrolment gets another address |
| `AddressPool.ListedLeasesAgree` | blaktail-coord/src/address_pool.rs:572-769 | they agree on every snapshot whose unreleased leases are listed by their devices |
| `AddressRuns.RunKeeps` | blaktail-coord/src/address_pool.rs:298-452 | every interleaving of enrolments, revocations, deletions, purges and reservations keeps the lease invariant |
| `AddressRuns.NoSharedAddress` | blaktail-coord/src/address_pool.rs:359-452 | in every run each active device's addresses are leased to it, so no two active devices share one |
| `AddressRuns.AutomaticAddressIsAged` | blaktail-coord/src/address_pool.rs:298-452 | in every run an address given without a reservation is a host, was not reserved at the read, and had no active holder in the seven days before it |
| `AddressRuns.ReservedAddressIsFree` | blaktail-coord/src/address_pool.rs:396-430 | a reservation never hands out an address in use |
| `AddressRuns.EnrolAlone` | blaktail-coord/src/address_pool.rs:383-452 | with no other transaction open the three steps lease the next host and write the device row |
| `AddressRuns.ViewIsExactInRuns` | blaktail-coord/src/address_pool.rs:572-769 | in every run and at every time the view offers exactly the address the next enrolment would get |
| `AddressStore.Store.StampReleases` | blaktail-coord/src/address_pool.rs:298-317 | leases of devices that left or are gone get the release time that applies |
| `AddressStore.Store.TakeLease` | blaktail-coord/src/address_pool.rs:359-378 | the conditional insert succeeds exactly on a free or aged address |
| `AddressStore.Store.AllocateLowest` | blaktail-coord/src/address_pool.rs:432-452 | the lowest unblocked host is leased, or exhaustion reported |
| `AddressStore.Store.AllocateReserved` | blaktail-coord/src/address_pool.rs:396-430 | the reserved address is leased unless a device still holds it |
| `AddressStore.Store.Allocate` | blaktail-coord/src/address_pool.rs:383-452 | releases are stamped, a reservation naming the device wins, otherwise the lowest host |
| `AddressStore.Store.NextFreeAddress` | blaktail-coord/src/address_pool.rs:572-769 | the view's sets yield its next free address |
| `Quota.RunKeeps` | blaktail-coord/src/agent_gateway.rs:1677-2045 | every interleaving of gateways keeps the tables consistent with the ledger of grants |
| `QuotaTheorems.LedgerIsConserved` | blaktail-coord/src/agent_gateway.rs:1726-2042 | in every run a day's tokens are settled usage plus open and abandoned reservations, its requests the number of grants, and usage rows the settled part per model |
| `QuotaTheorems.ModelTotalsAreCounter` | blaktail-coord/src/agent_gateway.rs:1948-2042 | the per-model totals sum to the settled part of the counter |
| `QuotaTheorems.GrantIsWithinQuotasInForce` | blaktail-coord/src/agent_gateway.rs:1732-1797 | right after a grant the day is within the quotas in force, whatever came between its read and its increment, unless a policy write lowered them there |
| `QuotaTheorems.GrantAfterPolicyChange` | blaktail-coord/src/agent_gateway.rs:1755-1797 | a policy written in between does not stop the grant, and its quotas hold afterwards exactly when they cover the reservation |
| `QuotaTheorems.LoweredQuotaIsOverrun` | blaktail-coord/src/agent_gateway.rs:1732-1797 | a run from empty tables that ends over the quotas in force |
| `QuotaTheorems.NeverOverQuota` | blaktail-coord/src/agent_gateway.rs:1726-2042 | with fixed quotas and settlements within reservations no reachable state is over quota |
| `QuotaTheorems.NeverOverQuotaFromStart` | blaktail-coord/src/agent_gateway.rs:1726-2042 | the same from empty tables |
| `QuotaTheorems.ClosedStaysClosed` | blaktail-coord/src/agent_gateway.rs:1948-2042 | a settled or abandoned grant never changes and cannot be settled by anyone |
| `QuotaTheorems.SettledAtMostOnce` | blaktail-coord/src/agent_gateway.rs:1948-2042 | no run settles a grant twice, even when a gateway retries |
| `QuotaTheorems.SettleChargesItsDay` | blaktail-coord/src/agent_gateway.rs:1980-2042 | settlement moves only the counter of the reservation's key and day |
| `QuotaStore.Store.Authorize` | blaktail-coord/src/agent_gateway.rs:1629-1675 | an unknown key changes nothing; otherwise retention runs first, and every refusal is counted and creates the day's counter |
| `QuotaStore.Store.Decide` | blaktail-coord/src/agent_gateway.rs:1677-1820 | refusals in order (caller, binding, size, model, provider), then a grant exactly when it fits |
| `QuotaStore.Store.ReserveTokens` | blaktail-coord/src/agent_gateway.rs:1726-1797 | the read, the output allowance and the conditional increment grant exactly when the reservation fits |
| `QuotaStore.Store.Increment` | blaktail-coord/src/agent_gateway.rs:1755-1797 | the conditional increment and its request row happen together or not at all |
| `QuotaStore.Store.IngestUsage` | blaktail-coord/src/agent_gateway.rs:1934-2045 | only the reserving gateway settles, only a pending request, with a known status and within the reporting limits |
| `QuotaStore.Store.Purge` | blaktail-coord/src/agent_gateway.rs:514-536 | expired rows go and stale pending requests become abandoned |
| `GatewayRequest.ForwardedWithinReservation` | blaktail-agentgw/src/lib.rs:507-522 | after the clamp a limit is always sent, and prompt estimate plus each limit is within the reservation |
| `GatewayRequest.GoverningLimitIsReserved` | blaktail-agentgw/src/lib.rs:498-522 | the limit that governs the forwarded request is exactly the output reserved |
| `GatewayRequest.ClampComposes` | blaktail-agentgw/src/lib.rs:507-522 | clamping twice is clamping to the smaller limit |
| `GatewayRequest.ChatRequest.ClampMaxTokens` | blaktail-agentgw/src/lib.rs:507-522 | the in-place edit is the clamp |
| `Providers.ChooseProvider` | blaktail-coord/src/agent_gateway.rs:1571-1627 | the flags and the loop yield the first usable provider or the denial that explains the refusal |
| `Providers.ListModels` | blaktail-coord/src/agent_gateway.rs:1849-1903 | each allowed model is listed once, with its first usable provider by name |
| `Providers.ListedIffChosen` | blaktail-coord/src/agent_gateway.rs:1571-1903 | a model is listed exactly when a request for it would find a provider |
| `Providers.ListedProviderIsChosen` | blaktail-coord/src/agent_gateway.rs:1571-1903 | the listed provider is the chosen one exactly when it is onshore or no onshore provider serves the model |
| `Providers.OnshoreIsChosenInstead` | blaktail-coord/src/agent_gateway.rs:1571-1903 | an input where the list names an offshore provider and the choice an onshore one |
| `Drafts.ApplyAllMeaning` | blaktail-coord/src/change_drafts.rs:439-502 | applying yields exactly the documents in which every touched surface is what its writer stores beside those written before it, and fails exactly when there are none |
| `Drafts.RunKeeps` | blaktail-coord/src/change_drafts.rs:936-1390 | every interleaving keeps bases matched to payloads and loaded versions matched to rows |
| `Drafts.PublishCommitsNamedVersion` | blaktail-coord/src/change_drafts.rs:1205-1346 | whoever saw a version: a later publish naming it commits that payload onto documents whose etags equal the base seen, and bumps the revision once, whatever ran in between |
| `Drafts.PreviewRefusedExactly` | blaktail-coord/src/change_drafts.rs:1205-1244 | in every run the preview is refused exactly when the row is closed or not the version named, a touched document changed, the proposal cannot be stored, or a risk is unconfirmed |
| `Drafts.PublishRefusedExactly` | blaktail-coord/src/change_drafts.rs:1245-1278 | in every run the commit step is refused exactly when no preview passed, the row is not the one named and loaded, a touched document changed, or the proposal cannot be stored |
| `Drafts.EditsKeepBases` | blaktail-coord/src/change_drafts.rs:1031-1179 | only a rebase moves the base of a retained surface; only publishing and outside writers touch live documents |
| `Drafts.ClosedNeverChanges` | blaktail-coord/src/change_drafts.rs:231-267 | a published, discarded or expired draft never changes |
| `Drafts.PublishedAtMostOnce` | blaktail-coord/src/change_drafts.rs:1205-1346 | no run publishes a draft twice |
| `Drafts.VersionNamesContents` | blaktail-coord/src/change_drafts.rs:257-273 | versions never go back, and a row at the same version has the same contents |
| `DraftStore.Store.Load` | blaktail-coord/src/change_drafts.rs:231-273 | drafts past their time expire first, then the reasons to refuse are checked in order |
| `DraftStore.Store.Publish` | blaktail-coord/src/change_drafts.rs:1205-1346 | every surface or none, with the reply for each refusal in order, unconfirmed risks included |
| `DraftStore.Store.Update` | blaktail-coord/src/change_drafts.rs:1031-1122 | retained surfaces keep their base and added ones take the live etag |
| `DraftStore.Store.Rebase` | blaktail-coord/src/change_drafts.rs:1132-1179 | the base becomes the live etags, after which nothing is stale |
| `DraftStore.Store.Discard` | blaktail-coord/src/change_drafts.rs:1348-1390 | an admitted draft is closed, any other left alone |
| `AuditChain.Chain.Append` | blaktail-coord/src/audit_log.rs:78-119 | the sequence, head and rows stay those of the entries appended |
| `AuditChain.VerifyChain` | blaktail-coord/src/audit_log.rs:133-238 | the batched loop reports intact exactly when hashes, links and the head fit, and counts the rows it saw |
| `AuditChain.CheckPage` | blaktail-coord/src/audit_log.rs:156-213 | after each batch no problem is recorded exactly when the rows so far are sound |
| `AuditChain.PageIsNext` | blaktail-coord/src/audit_log.rs:156-175 | a batch is the next rows, none repeated or skipped, and empty only at the end |
| `AuditChain.RetainedIsIntactIffSuffix` | blaktail-coord/src/audit_log.rs:133-238 | of an honest chain, whatever was removed, the report is intact exactly when the rows left run up to the head |
| `AuditChain.IntactRowsAreHonest` | blaktail-coord/src/audit_log.rs:55-238 | intact rows under the honest head are the honest rows from the first number on, exactly unless the first previous hash is empty text |
| `AuditChain.BlankPreviousIsAccepted` | blaktail-coord/src/audit_log.rs:55-73 | an input that shows the exception |
| `KeysetExport.NextPage` | blaktail-coord/src/audit_log.rs:286-347 | after a row's cursor come exactly the rows that follow it |
| `KeysetExport.DescendingIsUnique` | blaktail-coord/src/audit_log.rs:286-347 | rows with unique ids have one descending order |
| `KeysetExport.CollectAudit` | blaktail-coord/src/audit_log.rs:462-485 | the loop ends with the first rows of the order, truncated exactly when more match |
| `KeysetExport.ExportAudit` | blaktail-coord/src/audit_log.rs:462-485 | the same with the limit of 10,000 |
| `KeysetExport.LoadEvents` | blaktail-coord/src/flow_events.rs:1583-1619 | a page is the next rows, with a cursor exactly when more follow |
| `KeysetExport.CollectFlow` | blaktail-coord/src/flow_events.rs:1914-1945 | whole pages up to the limit rounded up, truncated exactly when more match |
| `KeysetExport.ExportFlow` | blaktail-coord/src/flow_events.rs:1914-1945 | the same with pages of 500 and the limit of 50,000 |
| `KeysetExport.ExportedAreNewest` | blaktail-coord/src/flow_events.rs:1914-1945 | exported rows match, descend, and are newer than every matching row left out |
| `CivilDate.YearLength` | blaktail-coord/src/flow_events.rs:1882-1902 | the reference day count gives each year 365 days, or 366 by the leap rule |
| `CivilDate.CivilIsCalendarDate` | blaktail-coord/src/flow_events.rs:1882-1902 | for every day the computed date exists in the Gregorian calendar and its day number is the day |
| `CivilDate.CivilIsUnique` | blaktail-coord/src/flow_events.rs:1882-1902 | it is the only such date |
| `CivilDate.DayNumberIsInjective` | blaktail-coord/src/flow_events.rs:1882-1902 | different dates have different day numbers |
| `Timestamp.UtcRoundTrip` | blaktail-coord/src/flow_events.rs:1882-1902 | the text reads back by the grammar of sections 5.6 and 5.7 of RFC 3339 as the same second exactly when the year is 0 to 9999, and is no timestamp otherwise |
| `Timestamp.FourDigitYears` | blaktail-coord/src/flow_events.rs:1882-1902 | the exact range of seconds with such a year |
| `FlowDirectory.AddAddresses` | blaktail-coord/src/flow_events.rs:440-447 | an active row overwrites an address, an inactive one only fills a gap |
| `FlowDirectory.Load` | blaktail-coord/src/flow_events.rs:414-509 | owners, rows, and both prefix lists in stable order of specificity |
| `FlowDirectory.StableSortSorts` | blaktail-coord/src/flow_events.rs:502-507 | the sort keeps every entry and puts longer prefixes, then lower names, first |
| `FlowDirectory.SortedMatchIsBest` | blaktail-coord/src/flow_events.rs:525-550 | the first match of the sorted list is the best entry of the unsorted one |
| `FlowDirectory.DeviceMeaning` | blaktail-coord/src/flow_events.rs:512-524 | an address is a device's exactly when a row holds it: the last active holder, else the first holder |
| `FlowDirectory.ResolveMeaning` | blaktail-coord/src/flow_events.rs:512-556 | devices first, then the most specific resource, then the most specific approved route, ties by name and row order |
| `FlowEvaluator.FindRules` | blaktail-coord/src/flow_events.rs:646-693 | the loop finds the first deny and first allow rule |
| `FlowEvaluator.EvaluateAgrees` | blaktail-coord/src/flow_events.rs:646-693 | the recorded basis allows exactly when the policy allows the flow, and names the rule that decided |
| `FlowEvaluator.Evaluator.Outcome` | blaktail-coord/src/flow_events.rs:711-821 | an answer comes from the cache of the events before it |
| `FlowEvaluator.Evaluator.Batch` | blaktail-coord/src/flow_events.rs:996-1032 | a batch gets, in order, the memoised answers, and the uncached ones when the cache is sound |
| `FlowEvaluator.KeyDecides` | blaktail-coord/src/flow_events.rs:726-735 | two events with one key have one outcome |
| `FlowEvaluator.MemoIsTransparent` | blaktail-coord/src/flow_events.rs:711-821 | every batch in every order gets the uncached answers exactly when nothing else resolves to a known device's identifier |
| `FlowEvaluator.LoadedConfusesIff` | blaktail-coord/src/flow_events.rs:414-821 | for every loaded directory of distinct device rows: some batch gets a wrong answer exactly when an address resolves to a resource or route under the id of a known device that owns an address |
| `FlowEvaluator.SharedIdConfuses` | blaktail-coord/src/flow_events.rs:711-821 | an input: one device and one resource stored under the same id, loaded into any directory |
| `FlowEvaluator.DisjointIsTransparent` | blaktail-coord/src/flow_events.rs:711-821 | disjoint device, resource and route identifiers are enough |
| `FlowEvaluator.LoadedIsTransparent` | blaktail-coord/src/flow_events.rs:414-821 | so are rows whose device ids are no resource id and no approved route text |
| `FlowEvaluator.CheckedResourceIsResolved` | blaktail-coord/src/flow_events.rs:774-781 | with distinct ids the constraints checked are those of the most specific resource |
| `FlowEvaluator.StorableAgreesWithFilter` | blaktail-coord/src/resources.rs:1000-1021 | for every resource the write check lets in, the grant test agrees with the forward filter's service |
| `FlowEvaluator.GrantsIsForwardFilter` | blaktail-coord/src/flow_events.rs:369-389 | for any row they agree exactly when it names no ports, or one that parses and not ICMP |
| `ConnectorAddress.Forbidden4Meaning` | blaktail-coord/src/app_connectors.rs:73-88 | the table refuses exactly the listed IPv4 intervals |
| `ConnectorAddress.Forbidden6Meaning` | blaktail-coord/src/app_connectors.rs:91-127 | exactly the reserved IPv6 intervals, the organisation's pool, and NAT64 forms of refused IPv4 addresses |
| `ConnectorAddress.EmbeddedStaysForbidden` | blaktail-coord/src/app_connectors.rs:91-127 | neither the mapped nor the NAT64 form of a refused IPv4 address is accepted |
| `Connectors.ProtectsMeaning` | blaktail-coord/src/app_connectors.rs:376-400 | a prefix protects exactly the addresses it covers, default routes aside |
| `Connectors.AcceptedMeaning` | blaktail-coord/src/app_connectors.rs:488-520 | the answers are blocked exactly when one is bad; otherwise each answered address is kept with its least TTL |
| `Connectors.ReportIgnoresOrder` | blaktail-coord/src/app_connectors.rs:419-607 | order and repetition of answers change neither the tables nor the verdict |
| `Connectors.ReportMeaning` | blaktail-coord/src/app_connectors.rs:419-607 | what rows the reporting pair has afterwards in each case, with lifetimes of 90 to 300 seconds |
| `Connectors.BumpsExactlyOnChange` | blaktail-coord/src/app_connectors.rs:419-607 | one bump exactly when the report is blocked or changes the pair's unexpired routes |
| `Connectors.OthersKeepLive` | blaktail-coord/src/app_connectors.rs:456-460 | other pairs keep exactly their unexpired rows |
| `Connectors.ExpireMeaning` | blaktail-coord/src/app_connectors.rs:612-629 | expiry removes exactly the expired rows and bumps exactly when there are any |
| `Connectors.BumpIsForeseen` | blaktail-coord/src/app_connectors.rs:461-607 | from the tables and the report alone: whether it will bump the revision |
| `Connectors.SweepIsSilent` | blaktail-coord/src/app_connectors.rs:456-460 | a report announces its removals exactly when it is bound to bump or renews every expired row |
| `Connectors.SilentWithdrawal` | blaktail-coord/src/app_connectors.rs:456-460 | an input where an expired route vanishes unannounced |
| `ConnectorRuns.LiveIsLastReport` | blaktail-coord/src/app_connectors.rs:419-629 | in every run a pair's unexpired routes are those of its last effective report whose lifetime has not run out |
| `ConnectorRuns.SilenceClearsRoutes` | blaktail-coord/src/app_connectors.rs:33-40 | 300 seconds after its last effective report a pair has no route |
| `ConnectorRuns.BlockedStaysClosed` | blaktail-coord/src/app_connectors.rs:522-551 | after a blocked report a pair has no route until its next effective report |
| `ConnectorStore.Collect` | blaktail-coord/src/app_connectors.rs:488-520 | the loop that stops at the first bad answer computes the accepted map |
| `ConnectorStore.Store.Install` | blaktail-coord/src/app_connectors.rs:553-575 | one row per accepted route, and the earliest expiry |
| `ConnectorStore.Store.Receive` | blaktail-coord/src/app_connectors.rs:419-607 | the handler's tables and verdict are the report's |
| `ConnectorStore.Store.Expire` | blaktail-coord/src/app_connectors.rs:612-629 | expired rows go, with a bump exactly when there were any |
| `SseTap.Buffer.Feed` | blaktail-agentgw/src/lib.rs:846-889 | draining lines from the buffer reads exactly its complete lines and keeps the rest, dropped when too long |
| `SseTap.LinesAppend` | blaktail-agentgw/src/lib.rs:846-889 | the lines of a stream are those of a prefix and those of its rest with the remainder |
| `SseTap.ChunksAsWhole` | blaktail-agentgw/src/lib.rs:846-889 | any split of a bounded stream leaves buffer, usage, text and end flag as the whole would |
| `SseTap.ChunkingIsInvisibleIff` | blaktail-agentgw/src/lib.rs:846-889 | every split behaves like the whole, for every way of reading lines, exactly when no line exceeds the limit |
| `SseTap.BadSplit` | blaktail-agentgw/src/lib.rs:846-889 | every stream out of bounds has a split in two that loses a line or changes the buffer |

## Left out

- Forwarding.CompileClient: which rules are appended is stated, not their order or how often a rule appears; `permits` reads each list as a whole, so neither changes what is permitted.
- AddressStore.Store.Allocate: takes some reservation that names the device where the source takes the first in the database's text order, which depends on collation; the paired IPv6 address is left out.
- QuotaStore.Store.Authorize: the provider's sealed credential and the time a key was last used are left out.
- QuotaStore.Store.IngestUsage: stored request and response contents, latency and the HTTP status are left out; they do not feed the quota.
- DraftStore.Store.Publish: the preview and the write are one step here; the runs of `Drafts` separate loading from committing.
- Connectors.ReportIgnoresOrder: the reason text of a blocked report names its first bad answer, so it depends on order; reasons are not modelled.
- Ipam.OffsetsAreDistinct: the source subtracts before it tests the range, which would overflow for an address below 100.64.0.0; the model subtracts only inside the range, where every host lies.
- HTTP handlers, authentication, TLS, SMTP and chat notifications: input and output around the logic.
- SQL engines, row decoding and their errors: tables are maps and a statement is one step.
- Renumbering, pool growth and `allocate_from_pools`: address pools keep their hosts in the model.
- The policy matcher, the services of policy rules, group membership, posture and resource access lists: inputs of the model.
- Integer widths outside address arithmetic: counters and clocks are unbounded integers.
- The cap on reservations, idempotent replay and etags of `reserve` and `release`: both are single guarded steps here.
- An enrolment's stamping of releases and its table reads: one step, as they are one transaction before the conditional insert.
- SHA-256: modelled as a digest without collisions.
- Rows without a chain number, the texts of audit problems and their cap of twenty: only whether a problem exists is modelled.
- Audit retention by age: `AuditChain.Chain.DropOldest` drops a prefix, and `RetainedIsIntactIffSuffix` covers the removal of any rows.
- Filters, cursor texts and CSV output of the exports: a row carries its filter verdict, and a cursor is a pair.
- The contents of draft previews and the scan for secrets: risk codes are an input of the model.
- Validation of uploaded flow events, sampling, `reconcile` and rule labels: outcomes do not depend on them, and the cache is proved for all events between addresses.
- The formatted cache key: a tuple of its six parts.
- The lookup of the reported resource and its name: `Connectors.Reported` starts after it.
- UTF-8 decoding and JSON parsing of a stream line: a parameter of the tap.
- `blaktail-config`, quiet hours of notification channels, consoles and packaging: field lists and user interface.
