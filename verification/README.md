# Verification model of the Huawei Cloud provider for Karpenter

This project models the launch pipeline of the provider in Dafny and proves what it promises:

- the ledger of free IP addresses that concurrent launches reserve from and give back to (`SubnetLedger`, `SubnetProvider`, `LedgerRuns`, `ListingRuns`);
- the ext4 and LVM arithmetic behind a node's ephemeral storage (`SparseSuper`, `Ext4`);
- the launch itself: candidates in order, fallback, and the cache that suppresses refused offerings (`Candidates`, `Launch`, `OfferingCache`, `SuppressionRuns`);
- instance types: the per-zone status list, offering zones, the flushed cache, the paged fetch (`CondOperationAZ`, `InstanceTypes`, `InstanceTypeProvider`, `InstanceTypeRuns`, `Pagination`), and how a listing feeds a launch (`Pipeline`);
- batched pricing that retries with fewer products (`Pricing`, `PricingProvider`);
- the hash-version migration of node classes and node claims, and the drift check that watches it (`HashMigration`, `HashController`);
- kubelet reservations turned into request fields (`Reserved`).

`Base` holds options, results, Go's integer widths, cache expiry, string order and sorting. `dafny verify dfyconfig.toml` checks everything.

Components that update objects in the source are classes here. Each method is proved against a function on plain values, and the lemmas are about those functions. What a function computes is also told without it, from the inputs and replies alone (`ListAnswers`, `StorageMeaning`, `AskedCheapest`, `LargestLeanest`, `Describes` and the lemmas around them). Components used concurrently also have a state machine over the same functions: a `Step` type, `Apply`, and `Run` over any sequence of steps. One step is one section that the source runs under a lock or one API call, so a theorem about `Run` covers every interleaving.

## Conventions

- API calls are arguments: a reply, or a function from the number of the request to its reply. Nothing is assumed about them beyond what a contract says. Time is an integer passed in.
- A cached value is returned up to and including its expiry instant, as in go-cache. The subnet caches are built with positive lifetimes (`pkg/operator/operator.go:128`). The suppression cache models a lifetime that is not positive as well: its entries never expire.
- `int32` and `int64` operations that can wrap are written with `Wrap32` and `Wrap64`, or use a bounded type so that the verifier rejects an overflow.
- The content hashes of the change monitor and of the instance-type cache key are taken to be injective on their content, lists counting as sets. The hash of a node class's spec is a string about which nothing is assumed.
- Prices and resource quantities are exact reals; a price is never NaN or infinite. `Value` and `MilliValue` round up when the result fits and return anything otherwise. A decimal integer that `strconv.ParseInt` accepts is also a quantity, of the same value.
- An offering has one capacity type and one zone, as `createOfferings` makes them; an empty string stands for a requirement without values. Scheduling requirements are an arbitrary predicate on offerings.
- Go compares strings by bytes, which for UTF-8 is the order of code points used here.

## What the proofs found

- The count of backup superblocks is right for every group count except 1, where it says 2 (`CopiesCountBackupGroups`).
- Storage sizes are exact up to 858,993,459 GiB and wrong for every larger `int32`. They grow with the disk except on three steps that enter a larger journal tier and, from 2,441,406 GiB on, on steps that add a block group after a backup group (`StorageExactIff`, `StorageGrowsIff`, `StorageFirstShrinksAt`).
- A release that finds no cached baseline for its subnet leaves a tracked entry behind until the next refresh (`ReleaseForgetsIff`; `UncachedBaselineLeavesEntry` is such a run).
- An empty subnet ID in the status list, if it is the first with the largest count, makes the selection start over behind it (`PickIsFirstMaximum`; `EmptyIDHidesMaximum` shows it at a ledger that a run reaches).
- Migration trusts the Drifted condition whatever its reason. A claim that agreed with its class but was Drifted for another reason is reported as drifted afterwards, and one that disagreed but was not yet marked is not (`MigrationTrustsDriftedCondition`). A comment in the source mentions only that claims already drifted stay drifted.
- Learning a memory size from a node, or its expiry, leaves stale sizes in the cached instance types (`MemoryStaleIff`). Two flavors of one name that change places leave a stale flavor, because the change monitor hashes the list as a set (`RefetchStaleIff`; `RepeatedNameIsStale` is such a run).
- Two types whose usable offerings share a deduplication key make the launch order depend on the listing; that takes a `/` in a zone name (`OrderIsFixedIff`, `CleanZonesShareNoKey`, `SlashSharesKey`).

## Model

| member | source | states |
|---|---|---|
| LedgerRuns.CountStaysBounded | pkg/providers/subnet/subnet.go:196-249 | in every run of refreshes, selections, releases and elapsed time, while a baseline is cached the subnet's count lies between the baseline minus what launches since the last refresh still hold and the baseline; releases of older reservations raise it by at most their sum; a tracked entry is strictly below the baseline |
| LedgerRuns.CountIsExact | pkg/providers/subnet/subnet.go:206-249 | without releases of pre-refresh reservations the count is exactly baseline minus outstanding, and an entry is tracked exactly when something is outstanding |
| LedgerRuns.QuietLedgerTracksNothing | pkg/providers/subnet/subnet.go:222-249 | once all launches have released, in any order and across any refreshes, no subnet with a cached baseline is tracked |
| LedgerRuns.ReleaseForgetsIff | pkg/providers/subnet/subnet.go:222-249 | in every run, a release with nothing older given back since the last refresh forgets the subnet if and only if its baseline is cached at that moment and nothing else is outstanding |
| LedgerRuns.ModestRunsFit | pkg/providers/subnet/subnet.go:206-249 | no int32 operation wraps in a run whose reported counts are from 0 to some maximum that, with everything the run ever reserves, stays below 2^31 |
| LedgerRuns.SecondReleaseIsIdle | pkg/providers/subnet/subnet.go:230-234 | releasing the same reservation again changes nothing |
| LedgerRuns.ReleasesCommute | pkg/providers/subnet/subnet.go:222-249 | two launches that finish in either order leave the same ledger |
| LedgerRuns.ReleaseUndoesReserve | pkg/providers/subnet/subnet.go:206-249 | a selection followed by its release restores the ledger if and only if nothing was reserved, the subnet was tracked, or its baseline is cached |
| LedgerRuns.SelectExactIffFits | pkg/providers/subnet/subnet.go:206-212 | from exact accounting, a selection keeps it exact if and only if its int32 subtraction does not wrap |
| LedgerRuns.PickIsFirstMaximum | pkg/providers/subnet/subnet.go:164-179 | for any list of IDs the selection loop takes the first subnet with the largest count if and only if that ID is not empty; if it is, the loop starts over behind it |
| LedgerRuns.FreshSelectionIsFreest | pkg/controllers/nodeclass/subnet.go:53-61 | straight after a refresh and the reconcile after it, a launch gets the subnet with most free addresses, the smallest ID among equals |
| ListingRuns.ListAnswers | pkg/providers/subnet/subnet.go:82-124 | in every run, from a successful fetch for a hash until one list lifetime after it a listing with that hash answers that reply's selected subnets, each ID with its last entry; otherwise those of its own reply, or that reply's error; without selector terms nothing |
| ListingRuns.LastEntryMeaning | pkg/providers/subnet/subnet.go:108-115 | the entry answered for an ID is the last of the response that has the ID and that some term selects by its ID, its name or both |
| ListingRuns.BaselineIsLastCount | pkg/providers/subnet/subnet.go:112-114 | in every run a subnet's baseline is the count of the last fetch, for any hash, that selected it, for one address lifetime; a launch counts what is tracked, else the baseline, else nothing |
| SubnetProvider.Provider.List | pkg/providers/subnet/subnet.go:82-124 | the answer (nothing selected, cached, error, or matched subnets by ID) and the whole new ledger: a refresh restarts the matched baselines and drops their tracked counts, anything else changes nothing |
| SubnetLedger.MatchedKeys | pkg/providers/subnet/subnet.go:108-115 | the matched subnets are exactly the IDs with some matching entry in the response, each under its own ID |
| SubnetProvider.Provider.SelectForLaunch | pkg/providers/subnet/subnet.go:149-218 | the chosen subnet is the loop's, the reservation is the largest, over zones, of the pods of the leanest type on sale there, and the ledger changes by exactly that reservation; no subnet, no change |
| SubnetProvider.Provider.PredictedIPs | pkg/providers/subnet/subnet.go:181-205 | the reservation is the largest, over zones, of the pods of the type with the fewest among those with an available offering of the capacity type there, and zero when there is none |
| SubnetLedger.ReservationUnique | pkg/providers/subnet/subnet.go:195-205 | that description fixes the reservation, so the map order of zones cannot matter |
| SubnetLedger.SuppressedDoNotCount | pkg/providers/subnet/subnet.go:252-257 | offerings that are not available never change a reservation |
| SubnetProvider.Provider.MinPods | pkg/providers/subnet/subnet.go:252-269 | the fewest pods among types with an available offering of the capacity type in the zone, truncated to int32, zero when none has one |
| SubnetProvider.Provider.ReleaseInflightIPs | pkg/providers/subnet/subnet.go:222-250 | the handle is emptied and the ledger credited; null, empty-ID and emptied handles change nothing |
| SubnetProvider.Reconcile | pkg/controllers/nodeclass/subnet.go:43-64 | the status lists exactly the answered subnets, most free first and then by ID, ready exactly when there are any; on an error the status stays |
| SubnetProvider.StatusOrderUnique | pkg/controllers/nodeclass/subnet.go:53-61 | the status order does not depend on how the map of subnets was listed |
| SubnetProvider.StatusOrderMeaning | pkg/controllers/nodeclass/subnet.go:53-61 | the status lists each answered subnet before all with fewer free addresses and before those with as many and a larger ID |
| SparseSuper.SparseSuperGroupCopies | pkg/providers/instancetype/types.go:249-264 | the loop terminates, no int64 operation overflows, and it counts the powers of 3, 5 and 7 below the group count |
| SparseSuper.CopiesCountBackupGroups | pkg/providers/instancetype/types.go:249-264 | the count is the number of group indices that are 0, 1 or a positive power of 3, 5 or 7 if and only if there is not exactly one group |
| SparseSuper.BasesDisjoint | pkg/providers/instancetype/types.go:254-262 | powers of two different bases never coincide, so no group is counted twice |
| Ext4.NoStepWraps | pkg/providers/instancetype/types.go:196-240 | for disks of 1 GiB and up, every int64 step is exact if and only if the disk has at most 858,993,459 GiB |
| Ext4.StorageWithinVolume | pkg/providers/instancetype/types.go:196-240 | within the limit, and for defaulted sizes, 0 < storage < kubernetes volume <= a tenth of the managed volume |
| Ext4.StorageExactIff | pkg/providers/instancetype/types.go:196-240 | the reported storage is the exact one if and only if the disk is within the limit; it is zero just past it |
| Ext4.StorageMeaning | pkg/providers/instancetype/types.go:196-303 | for every size within the limit the reported number of bytes is the one that the parts give: extents, block groups, descriptor table, its reserve, the backup groups and the journal, each tier with its literal size and both ends |
| Ext4.DefaultStorage | pkg/providers/instancetype/types.go:196-201 | a disk of the default size, and a class without one, reports 10,459,828,224 bytes |
| Ext4.OverheadLeavesRoom | pkg/providers/instancetype/types.go:223-230 | filesystem metadata is positive and smaller than the volume, from the logarithmic bound on backups |
| Ext4.StorageGrowsIff | pkg/providers/instancetype/types.go:196-303 | over the whole exact range, one more GiB gives strictly more storage if and only if the step is not one of the three (from 320, 640 and 1280 GiB) that enter a larger journal tier, and does not add a block group right after a backup group numbered 1,953,125 or above |
| Ext4.StorageFirstShrinksAt | pkg/providers/instancetype/types.go:217-264 | the first step of that second kind is the one from 2,441,406 GiB |
| OfferingCache.Cache.MarkUnavailable | pkg/utils/offering_availability_cache.go:40-45 | exactly the offering's key is set, to expire one lifetime from now, or never when the lifetime is not positive |
| OfferingCache.Cache.IsUnavailable | pkg/utils/offering_availability_cache.go:47-53 | true exactly while the key's entry has not expired |
| OfferingCache.KeyInjective | pkg/utils/offering_availability_cache.go:62-64 | keys identify offerings when capacity type and instance type contain no separator |
| SuppressionRuns.NoRequestForSuppressed | pkg/providers/instance/instance.go:158-208 | in every run of concurrent launches, each filtering candidate by candidate, no request names an offering with a refusal recorded before the launch checked that candidate and at most one lifetime before it did |
| SuppressionRuns.LaunchIsRun | pkg/providers/instance/instance.go:158-208 | a launch on its own is such a run: the filter and the fallback loop of the methods make the same requests and leave the same cache as a sequence of the modelled steps |
| SuppressionRuns.SuppressedIffRecentlyRefused | pkg/utils/offering_availability_cache.go:40-53 | at every moment an offering is suppressed if and only if some refusal of it is at most one lifetime old: a new refusal extends the window and its end frees the offering |
| Pipeline.LaunchIgnoresListingOrder | pkg/providers/instancetype/instancetype.go:151-169 | the map order of a listing cannot change the order in which a launch tries its candidates, zone names being free of the separator |
| Candidates.BuildCreateCandidates | pkg/providers/instance/instance.go:234-272 | the result holds, once each and with its own price, zone and name, the first matching offering of every (capacity type, zone, name), the cheapest first and then by zone and name; nothing without a subnet |
| Candidates.OrderIsFixedIff | pkg/providers/instance/instance.go:238-271 | every listing of the same types gives the same candidate sequence, so that neither map order nor the unstable sort can show, if and only if no usable offerings of two types share a deduplication key |
| Candidates.CleanZonesShareNoKey | pkg/providers/instance/instance.go:248-251 | no key is shared when the zones of usable offerings are free of the key separator |
| Launch.InstanceProvider.FilterUnavailable | pkg/providers/instance/instance.go:274-288 | keeps exactly the unsuppressed candidates, in order |
| Launch.InstanceProvider.TryInOrder | pkg/providers/instance/instance.go:166-232 | requests are a prefix of the candidates, all but the last refused; success is the last one's instance; exactly the refused ones are marked; insufficient capacity is reported exactly when all were refused, the last for capacity |
| Launch.InstanceProvider.Create | pkg/providers/instance/instance.go:113-232 | past the subnet selection: requests are for matching unsuppressed offerings, once each, the cheapest first, none skipped; success is the last request's node; every earlier one was turned down, and exactly what was turned down is newly suppressed, for one lifetime; insufficient capacity is reported exactly when nothing eligible is left and the last request, if any, was refused for capacity; the subnet reservation is given back on every exit |
| Launch.LaunchedIsCheapest | pkg/providers/instance/instance.go:168-227 | on success no matching offering that was neither suppressed nor turned down is cheaper than the launched one, or as cheap and before it by zone and name |
| Launch.AllowedTypesMeaning | pkg/providers/instance/instance.go:131-143 | the types considered are those of the listing, in its order, that the claim allows by name, or any when it names none, and that have a matching offering |
| Launch.RefusalMeaning | pkg/providers/instance/instance.go:819-855 | which error codes and messages count as a lack of capacity and which as an unsupported network |
| Launch.RefusedAreMarked | pkg/providers/instance/instance.go:181-208 | each refused offering stays suppressed for one lifetime from its last refusal (for ever when the lifetime is not positive) and no other entry changes |
| CondOperationAZ.ParseCondOperationAZ | pkg/providers/instancetype/instancetype.go:437-460 | the loop computes the specified map |
| CondOperationAZ.ParseInvertsPrint | pkg/providers/instancetype/instancetype.go:437-460 | any list of clean entries, with any mix of separators, bracket widths and white space, parses to the map in which the last entry of each zone wins |
| CondOperationAZ.LastWinsMeaning | pkg/providers/instancetype/instancetype.go:440-459 | a zone is present exactly when some entry names it, with the status of the last that does |
| CondOperationAZ.PartMeaning | pkg/providers/instancetype/instancetype.go:441-458 | any part of the list, well printed or not: blank ones name no zone, a part without brackets in order names itself, else what stands before the first opening bracket has the status up to the last closing one |
| InstanceTypeProvider.Provider.ResolveOfferingZones | pkg/providers/instancetype/instancetype.go:397-423 | in whatever order the overrides come, a zone is offered if and only if its override is available, or it has none, the default is available and the zone is in the universe |
| InstanceTypeProvider.Provider.ZoneUniverse | pkg/providers/instancetype/instancetype.go:350-358 | the universe is the API's zones and every zone some flavor names |
| InstanceTypeProvider.Provider.UpdateInstanceTypesLocked | pkg/providers/instancetype/instancetype.go:318-328 | the cache is flushed exactly when the flavors changed, and the table is replaced |
| InstanceTypeProvider.Provider.UpdateInstanceTypeOfferingsLocked | pkg/providers/instancetype/instancetype.go:346-383 | zones per flavor and their union are replaced, the cache flushed exactly when the zones changed |
| InstanceTypeProvider.Provider.Refresh | pkg/providers/instancetype/instancetype.go:288-304 | both updates from one fetch, and no change at all when a fetch fails |
| InstanceTypeProvider.Provider.CreateOfferings | pkg/providers/instancetype/instancetype.go:228-272 | exactly one on-demand offering per zone, in zone order, unavailable exactly while suppressed |
| InstanceTypeProvider.Provider.List | pkg/providers/instancetype/instancetype.go:139-170 | the cached types, or exactly the current flavors freshly resolved for the node class, with offerings injected, and the cache filled on a miss |
| InstanceTypeProvider.Provider.Get | pkg/providers/instancetype/instancetype.go:109-137 | the cached type when present, else the current flavor freshly resolved for the node class, with offerings injected; an error exactly when there is neither |
| InstanceTypeRuns.AnswersAreDescribed | pkg/providers/instancetype/types.go:100-133 | whatever was cached, in every run without repeated flavor names `List` answers exactly the current flavors and `Get` a current one, with the storage of the node class's disk, its maximum pods or else the smaller of memory tier and interface quota, its reservations and the memory overheads of its runtime; without learned sizes the memory is the flavor's |
| InstanceTypes.ResolveDescribes | pkg/providers/instancetype/types.go:80-200 | a resolved type carries the flavor's name, architecture, CPUs and memory, and all the node class contributes, with every tier and rate spelled out |
| InstanceTypeRuns.OfferedWhereKnown | pkg/providers/instancetype/instancetype.go:233-245 | a listed type is offered in its own zones when they are known, else wherever any flavor is |
| InstanceTypeRuns.GetAgreesWithList | pkg/providers/instancetype/instancetype.go:118-131 | in any state `Get` finds what `List` lists under the name, else what the tables have |
| InstanceTypeRuns.HitIsRecomputation | pkg/providers/instancetype/instancetype.go:109-226 | in every run without repeated flavor names and learned memory sizes, `List` and `Get` use what recomputing from the current flavors and offerings gives, for every node class with the cached key |
| InstanceTypeRuns.HitDiffersOnlyInMemory | pkg/providers/instancetype/instancetype.go:180-196 | in every run without repeated flavor names, learned and expired memory sizes included, a cached answer differs from a recomputed one at most in memory sizes |
| InstanceTypeProvider.Provider.UpdateInstanceTypeCapacityFromNode | pkg/providers/instancetype/instancetype.go:462-477 | a type's learned memory becomes the node's when none is known or the node's is not larger, and nothing else changes |
| InstanceTypeRuns.MemoryStaleIff | pkg/providers/instancetype/instancetype.go:462-477 | in every run, when a size is learned or expires, a cached entry that was right stays right if and only if the type is unknown or its memory stays the same; the condition reads only the learned size and the flavor's own |
| InstanceTypeRuns.RefetchStaleIff | pkg/providers/instancetype/instancetype.go:318-328 | in every run, after a fetch of the same set of flavors in any order, a cached entry that was right stays right if and only if the last flavor listed under each name has the fields resolution reads of the one before (or, when zones are fetched too, the zones changed and flushed it) |
| InstanceTypeRuns.ZonesAfterRefresh | pkg/providers/instancetype/instancetype.go:346-435 | after a refresh a resolved flavor is offered in exactly the zones that its own status for the zone, or else its default status over all zones listed or named, does not close, and `allZones` is the union over flavors; abandon, sellout and obt_sellout close, with any white space around them |
| Pagination.FetchInstanceTypes | pkg/providers/instancetype/instancetype.go:479-509 | against a server with distinct IDs the loop terminates with the whole list in order, exact multiples of the page size included, if and only if no request fails and no full page ends in an empty ID |
| Pricing.UpdateMeaning | pkg/providers/pricing/pricing.go:131-218 | at most one request per flavor, each of 1 to 100 products, none known to be unsupported; exactly the products a reply could not find become unsupported; on success each flavor was in an answered request or is unsupported and the table is the answers' prices; on failure the table stays |
| Pricing.UpdateAsks | pkg/providers/pricing/pricing.go:131-261 | every product asked for is of a current flavor, by its ID or else its name, for Linux; an update fails exactly without a project, without flavors, or when some request could not be answered; undisturbed it asks for every product once, in order of name, 100 at a time |
| Pricing.UnsupportedIsNeverAskedAgain | pkg/providers/pricing/pricing.go:371-406 | over any sequence of updates, failed ones included, a product whose request was answered by not finding its specification is in no later request, nor is one that was unsupported at the start in any |
| Pricing.BatchIsSound | pkg/providers/pricing/pricing.go:187-218 | the batch loop ends after at most as many requests as products, each a non-empty part of the batch without known unsupported products |
| Pricing.BatchAccountsForAll | pkg/providers/pricing/pricing.go:187-218 | a batch that succeeds leaves every product either in the answered request or unsupported, with that answer's prices |
| Pricing.FetchMarks | pkg/providers/pricing/pricing.go:205-215 | before every request and at the end, the known unsupported products are exactly the earlier ones and those in a request so far whose reply could not find their specification |
| Pricing.FetchPages | pkg/providers/pricing/pricing.go:172-184 | the table is the answered pages in order, later ones overwriting earlier ones |
| Pricing.PagesMeaning | pkg/providers/pricing/pricing.go:408-420 | a product is priced exactly when some answer of this update rates it, at the last such price |
| Pricing.PageMeaning | pkg/providers/pricing/pricing.go:263-298 | a page prices a product exactly when some rating of it is positive, at the last such price, the amount counting before the website's |
| PricingProvider.Provider.FetchOnDemandPricingBatch | pkg/providers/pricing/pricing.go:187-218 | the retry loop computes the specified requests, unsupported products and outcome |
| PricingProvider.Provider.UpdateOnDemandPricing | pkg/providers/pricing/pricing.go:131-185 | the new table, unsupported products, requests and failure of one update |
| HashMigration.ReportedExactly | pkg/cloudprovider/drift.go:51-65 | in every state reachable through failed patches, retries, crashes and other controllers' steps, exactly which claims the drift check reports |
| HashMigration.MatchedClaimReportedIff | pkg/controllers/nodeclass/hash/controller.go:81-113 | a claim that agreed with its class before the migration is reported if and only if the class is stamped, the claim's Drifted condition was present when its patch was computed, and the hashes differ |
| HashMigration.SteadyDriftReturns | pkg/controllers/nodeclass/hash/controller.go:97-103 | a claim that was reported and has been Drifted throughout is reported again once the class is stamped |
| HashMigration.NewClaimNeverReported | pkg/cloudprovider/cloudprovider.go:127-136 | claims created and launched during the migration are never reported |
| HashMigration.MigrationTrustsDriftedCondition | pkg/controllers/nodeclass/hash/controller.go:97-103 | two runs in which the Drifted condition decides wrongly in each direction |
| HashController.Cluster.UpdateNodeClaimHash | pkg/controllers/nodeclass/hash/controller.go:81-113 | in any order, every claim that needs it is patched except where its patch fails, an error is returned exactly when one failed, and the loop is a run of the modelled steps |
| HashController.Cluster.Reconcile | pkg/controllers/nodeclass/hash/controller.go:48-68 | the class is stamped exactly when nothing failed before, and the reconcile is a run of the modelled steps |
| Reserved.MilliExact | pkg/providers/instance/instance.go:446-457 | a CPU value is accepted with n if and only if it is exactly n thousandths, n from 0 to 2^31-1 |
| Reserved.UnitsExact | pkg/providers/instance/instance.go:459-474 | a memory or storage value is accepted with n if and only if it is exactly n units, n from 0 to 2^31-1 |
| Reserved.KeyAccepts | pkg/providers/instance/instance.go:410-492 | which text is accepted under which key and as what number; nothing is under any other key |
| Reserved.ParseReservedValues | pkg/providers/instance/instance.go:410-444 | accepted if and only if every key is supported and every value accepted; each field is then exactly its own key's quantity, absent when the key is |
| Reserved.SentEqualsSubtracted | pkg/providers/instancetype/types.go:390-397 | an accepted reservation is the same amount in the CreateNode request and in the scheduler's overhead, for each of the four keys |

## Left out

- `pkg/huawei`, `pkg/operator`, `cmd/controller`, charts and configuration: client construction and wiring.
- `pkg/cloudprovider/cloudprovider.go` beyond the hash and version stamped on a launched claim: error mapping and delegation.
- Subnet drift and the node-instance lookup of `pkg/cloudprovider/drift.go:67-89`: a membership test.
- Volume, storage, login, runtime and taint translation, and the other CRUD calls of `pkg/providers/instance/instance.go`: they would only add easy members.
- The percentage-based eviction threshold and CPU reservation tiers of `pkg/providers/instancetype/types.go`: their point is floating-point rounding.
- The remaining fixed requirements of a resolved type (region, labels): constants. Device fields that resolution does not read are not in the model's cache key, so it is equal more often than the real one.
- The content-hash algorithm, the extraction of the unknown product from error text, logging and metrics.
- A missing (nil) suppression cache and a missing resolver: the program always supplies both.
- `int64` wrap-around of `(memoryMiB * 25) / 1024`: the memory of a flavor is an `int32`, so it cannot happen.
- Subnet caches whose lifetime is not positive: go-cache would keep their entries for ever; the program builds them with one and five minutes.
- Edits of a node class's spec during a migration, and informer caches that lag behind the API server when a reconcile starts: a reconcile lists the claims as they are.
- A CreateNode request's body beyond instance type, zone and subnet.
- InstanceTypeProvider.Provider.UpdateInstanceTypeCapacityFromNode: does not carry the lifetime of a learned size or its renewal; in the runs such a size may expire at any time, which covers every lifetime.
- Launch.InstanceProvider.FilterUnavailable: looks at all candidates at one instant; in the runs of `SuppressionRuns` time passes and other launches act between two looks.
- Pagination.FetchInstanceTypes: does not cover servers that repeat an ID or return short pages early, for which the source loop need not end or be complete.
