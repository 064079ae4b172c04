# cloudip: a verified model of the attribution core

This project models, in Dafny, the part of `cloudip` that turns provider feeds into an IP
attribution database, reads that database, publishes it and serves it, and proves what that code
promises. The code's loops are methods with loop invariants, proved against specification functions;
the laws are lemmas about those functions. Protocols are state machines whose steps interleave freely.

| file | what it holds |
|---|---|
| `Bits`, `Net`, `Cidr` | aligned blocks, `netip` addresses and prefixes, `IPRange.Prefixes` |
| `Strings`, `Records`, `MergeLaws` | canonical string lists, stored records, the merge on collision and its algebra |
| `Streams` | entry streams, and consumers that may stop anywhere but are never called after they did |
| `AsnRanges`, `Coalescing`, `AsnTables` | in-place normalization of AS ranges: meaning, disjointness, minimality; `NewASNTable` |
| `Inverted` | the same normalization on rows whose bounds may be in the wrong order |
| `Enriching`, `Partitioning` | binary search and splitting sweep against a full scan; the pieces are an exact partition |
| `Passing` | what enrichment leaves as it is: errors, malformed entries, untouched networks, the skip count |
| `Tries`, `Building`, `BuildLaws` | the merge-on-insert tree against a pointwise fold; order, replay and concatenation laws |
| `Commuting`, `MappedCuts`, `SharedSlots` | enrichment commutes with building; exactly when, around mapped space and in slots both families share |
| `IpToAsn`, `AsnPaths` | the standalone ASN database, and what it says of an address against what enrichment stamps |
| `Reading`, `Verifying` | lookups, index, walk, CSV bounds; writing and reading back; the walk report |
| `Answers` | from entry stream to answer: the record a lookup decodes, in terms of the entries' own records |
| `Disks`, `Publishing` | crash safety of `BuildFile`, the guards, series of runs |
| `HotSwap`, `Freshness` | lookups, reloads, Close and grace timers in any interleaving; exactly when the served database gets older |
| `Serving` | the life of `cloudattr serve`: one reload goroutine, two front ends, shutdown, Close |
| `ServiceCalls` | the service's methods run alone, tied to the protocol's steps |
| `Collecting` | fail-fast and per-feed collection |

## How the model reads

- An address is an integer below 2^32 or 2^128 with its family. `Net.Key` lays both families on one
  line in the order of `Addr.Compare`. The MMDB tree is addressed by integers below 2^128; IPv4 is
  its `::/96`, so a v4 address and the v6 address with the same integer are one slot.
- `sort.Slice` and `sort.Strings` are used only through what a sort promises. Since `sort.Slice` is
  not stable, "first row wins" means first in some order sorted by `First`, and every statement holds
  for all such orders.
- A Go iterator is the sequence of pairs it would yield. `Streams.Consumer` stops after any chosen
  number of items; `Yield` requires that it has not stopped, so every method here is also proved
  never to call `yield` after it returned false. Each streaming method delivers exactly the prefix of
  its full output that the consumer asked for.
- The tree's refusal of a network (aliased space) is an arbitrary predicate on prefixes.
- Guards are computed in exact real arithmetic.
- A crash may leave any directory version since the last directory fsync, and anything at all in
  a file whose data was not fsynced.

## Findings

- `EnrichASN` can attribute IPv4 space that the entry does not cover. A v6 entry around
  `::ffff:0:0/96` is accepted; if a row boundary splits `::fffe:0:0/95`, a piece starts in mapped space
  and `normalizePrefix` later turns it into an IPv4 network, at worst `0.0.0.0/0`
  (`MappedCuts.MappedPieceReachesV4`). The comment above `normalizePrefix` wants to exclude that. The pieces
  of an entry deliver what the entry would, stamped, if and only if either the tree refuses the network and
  every piece of it, or it takes all of them and the network is clear of mapped space or no row of the v6
  table starts or ends inside `::fffe:0:0/95` (`MappedCuts.CommutesExactlyWhen`);
  `Commuting.EnrichmentCommutes` asks for exactly that of each entry.
- A v6 network inside `::/96` shares tree slots with IPv4, while the ASN table keeps the families
  apart: a slot can end up with the ASN of one row and the org of another, a pair no row announces
  (`SharedSlots.SharedSlotMixesRows`). In general the stored record is the plain one with the stamps of
  the first provider's covering entries on top of each other, so it carries one owner's stamp if and
  only if those add up to it (`SharedSlots.EnrichedExactlyWhen`): if its family covers last and its owner
  hides the other one, or if the other family covers last and its owner adds nothing
  (`SharedSlots.OwnerShowsExactlyWhen`). From 2^32 on all covering entries are
  v6 (`Commuting.HighIsV6`).
- `CoalesceASNRanges` on rows with `First` after `Last`, which the iptoasn plugin does not filter, can
  shorten a good neighbour (`Coalescing.InvertedRowShrinksNeighbour`). `NewASNTable` filters them, so
  enrichment is not affected. Without a filter, addresses keep their owners if and only if no row ends
  more than one address before its `First` while an earlier row of its AS ends right before that
  `First` (`Inverted.MeaningKeptExactlyWhen` has the exact wording).
- The standalone ASN database has one record per slot where enrichment knows the family of the entry: the
  stored `asn` is that of the v6 owner if there is one, else of the v4 owner. It agrees with enrichment for
  both families if and only if the two owners have the same ASN or neither exists, and always for v6 from
  2^32 on (`AsnPaths.AsnPathsAgree`).
- The iptoasn plugin stores the `as_org` of the first coalesced row of an ASN for all its rows. The whole
  ext is that of enrichment at every address if rows of one ASN have one org, and only then if no v4 and v6
  row share slots (`AsnPaths.SameExtExactlyWhen`); two rows with different orgs show the failure
  (`AsnPaths.SecondOrgIsLost`).
- After `Close` the service still points at the closed handle: any lookup that loads it then gets a
  closed handle (`HotSwap.FetchAfterCloseReadsClosed`), and within the grace period that is the only way
  to hold one (`HotSwap.NoReadAfterClose`).
- Overlapping reloads may leave the older file served (`Freshness.OverlappingReloadsServeOlder`). The
  served database gets older if and only if a handle opened before a replacement of the file is
  swapped in after one opened after it (`Freshness.OlderExactlyWhen`).
- `cmd/cloudattr/serve.go` reloads from one goroutine that it joins before `Close`, so under it the served
  database never gets older (`Serving.ServeNeverOlder`) and no reload overlaps `Close`
  (`Serving.NoReloadDuringClose`). Lookups are kept out by the server shutdown alone, and the HTTP one gives up
  after 5 seconds with its error ignored: a request that outlasts it, say a batch, reads the closed handle
  (`Serving.LateLookupReadsClosed`). After `Close` a lookup may still load that handle if and only if a request
  is left, which must be an HTTP one and needs the timeout (`Serving.ClosedReadExactlyWhen`).

## Model

| member | source | states |
|---|---|---|
| Net.NormalizePrefix | attribution/build.go:213-222 | a prefix that is kept stays valid exactly when it was, and is never v4-mapped |
| Net.NormalizeMovesBlock | attribution/build.go:205-222 | refused exactly when mapped and shorter than /96; otherwise the same block, moved down by ::ffff:0:0 if mapped |
| Net.AddressSizes | attribution/export.go:65-90 | 32-bit and 128-bit addresses, and v4-mapped ones from ::ffff:0:0 on |
| Net.CompareOrder | attribution/asn.go:67 | Addr.Compare: the zero address, then IPv4, then IPv6, each by value |
| Net.Neighbours | attribution/asn.go:147-158 | Next and Prev undo each other, and nothing of the family lies in between |
| Cidr.PrefixesCorrect | attribution/asn.go:178 | IPRange.Prefixes: aligned blocks, ascending, contiguous, covering the range exactly, none of which can be doubled |
| Strings.DedupeSorted | attribution/storage.go:108-124 | the in-place compaction of a sorted copy yields the canonical list |
| Strings.UnionSlices | attribution/build.go:159-187 | the set-and-sort union of two lists is the canonical form of their concatenation |
| Strings.CanonCorrect | attribution/storage.go:106-124 | a canonical list is strictly ascending and has exactly the elements of its input |
| Strings.CanonByElems | attribution/storage.go:106-107 | canonical lists are equal exactly when the inputs have the same elements |
| Strings.LeByDifference | attribution/storage.go:112-113 | one string sorts before another if it is a prefix or has the smaller character where they first differ |
| Records.ToMmdb | attribution/storage.go:59-98 | the loop over ext and the two list conversions build the stored form: equal identity, the derived family, both lists' elements, non-empty ext pairs, positive seconds |
| Records.StoredFields | attribution/storage.go:57-98 | what is stored for any record, field by field, and that nothing else could be |
| Records.StoreRoundTrip | attribution/storage.go:40-98 | decode then store is lossless on stored records; decode after store is the record exactly when it was canonical already |
| Records.CanonicalRoundTrip | attribution/storage.go:40-98 | storing what was decoded from any canonical stored record gives that record back |
| Records.UnionExt | attribution/build.go:189-202 | the two copying loops give the map union in which incoming values win |
| Records.MergeRecords | attribution/build.go:111-137 | the inserter computes the merge that all laws below are about |
| MergeLaws.FoldClosedForm | attribution/build.go:111-137 | a fold of merges is: first record's identity, first provider's services and newest time, ext as last set by it, everyone's categories |
| MergeLaws.ClosedFormUnique | attribution/build.go:111-137 | that description determines the record |
| MergeLaws.OrderLaw | attribution/build.go:118-134 | permuting behind the first record changes only values of ext keys its provider's records dispute |
| MergeLaws.ReplayLaw | attribution/build.go:111-137 | merging the same records again changes nothing |
| MergeLaws.ForeignRecords | attribution/build.go:116-129 | records of other providers change nothing but the categories, which become the union |
| MergeLaws.StampFold | attribution/build.go:111-137 | stamping the first provider's records alike commutes with merging, whatever the others get |
| MergeLaws.StampEachFold | attribution/build.go:111-137 | stamps of different records, on keys no record had, end up on top of each other, first provider's only |
| AsnRanges.Absorb | attribution/asn.go:69-88 | one iteration on the shared backing array is one step of the pure fold, and writes nothing beyond the write position |
| AsnRanges.CoalesceASNRanges | attribution/asn.go:66-90 | sort and in-place compaction equal a left fold of some sorted order into a fresh list |
| Coalescing.CoalescedMeaning | attribution/asn.go:59-65 | valid rows: output strictly disjoint, irreducible, and every address keeps the AS of the first sorted row holding it |
| Coalescing.CoalescedMinimal | attribution/asn.go:59-65 | no disjoint table with the same meaning has fewer rows |
| Coalescing.IrreducibleIsMinimal | attribution/asn.go:83-86 | any disjoint table without mergeable neighbours is of least length for its meaning |
| Coalescing.InvertedRowShrinksNeighbour | attribution/asn.go:83-86 | a row with First after Last can cut a good neighbour short |
| Inverted.MeaningKeptExactlyWhen | attribution/asn.go:66-90 | single-family rows, in order or not: every address keeps its owner exactly when no row ends before its First and would continue an earlier row of its AS, said of the input rows alone |
| Inverted.ShrinkBounds | attribution/asn.go:83-86 | only a row that is itself inverted, and starts above its neighbour's end, can shrink it |
| AsnTables.ASNTable.constructor | attribution/asn.go:40-57 | arbitrary rows become one coalesced table per family of the unmapped, valid, single-family ones |
| AsnTables.UsableMembers | attribution/asn.go:42-53 | a row is kept exactly when its unmapped form is valid and of one family |
| AsnTables.TableMeaning | attribution/asn.go:28-57 | a table is disjoint and of one family; an address has an owner exactly when a usable row holds it, and the owner has the least First |
| AsnTables.TableOwners | attribution/asn.go:28-57 | of arbitrary input rows: an address is attributed exactly when a row's bounds, v4-mapped or not, enclose it, to the AS of one that starts first |
| Enriching.SearchLast | attribution/asn.go:133-135 | binary search finds the first row ending at or after lo, given rows sorted by Last |
| Enriching.SortedByLast | attribution/asn.go:133-135 | the search predicate is monotone on tables built by NewASNTable |
| Enriching.YieldRange | attribution/asn.go:165-184 | the consumer gets the CIDR pieces of the range, stamped with the row if there is one |
| Enriching.SweepRow | attribution/asn.go:142-158 | one row of the sweep: gap, then stamped overlap, never empty; Prev in bounds |
| Enriching.Sweep | attribution/asn.go:141-160 | the sweep from the first candidate delivers what scanning all rows would; every Next in bounds |
| Enriching.EnrichEntry | attribution/asn.go:119-161 | normalization, search and sweep deliver the reference pieces of the entry, to any consumer |
| Enriching.EnrichASN | attribution/asn.go:101-115 | the whole stream: errors pass through, entries become their pieces, stopping is honoured |
| Enriching.DecimalValue | attribution/asn.go:172 | the stored ASN text is the decimal numeral of the ASN, without leading zeros |
| Partitioning.EntryPartition | attribution/asn.go:119-184 | pieces are masked CIDRs, ascending, contiguous, spanning the network exactly, each with one owner and its stamp |
| Passing.EnrichedOdd | attribution/asn.go:101-125 | the errors, invalid and malformed entries of the enriched stream are those of the stream, untouched and in order |
| Passing.EnrichedSkipsAlike | attribution/asn.go:119-125 | a tree that refuses nothing: enrichment changes neither whether a build goes through nor how much it skips |
| Passing.EnrichedSkipsNoFewer | attribution/build.go:89-94 | any tree: enrichment hides no skip, and makes none where there was none |
| Passing.UntouchedPasses | attribution/asn.go:136-139 | a network none of whose addresses has an owner passes as one entry with its own record |
| Passing.StampedRecord | attribution/asn.go:165-177 | a stamp sets asn, and as_org if the row names one, and changes nothing else |
| Tries.InsertFind | attribution/build.go:85-87 | an insert passes the inherited record of exactly the block's addresses through the inserter |
| Tries.ReducedUnique | attribution/build.go:85-87 | a tree with equal siblings collapsed is determined by what lookups find |
| Building.Build | attribution/build.go:73-96 | the loop with its error, invalid, malformed and rejected branches computes the specified fold and counts |
| Building.BuildRefines | attribution/build.go:73-96 | the record at an address is the left fold of the merge over the inserted entries covering it, in order |
| Building.BuildOutcome | attribution/build.go:73-98 | fails in the stream exactly on an error or invalid network; the counters are the numbers of entries not skipped and skipped |
| Building.FailureCounts | attribution/build.go:73-95 | the counters returned with an error are those of the items before the one that aborts |
| Building.BuildExactlyWhen | attribution/build.go:73-99 | a build succeeds exactly when nothing aborts it and something is inserted; otherwise all its entries were skipped |
| Building.BuildReduced | attribution/build.go:85-87 | no equal siblings are left in the tree |
| BuildLaws.HeldClosedForm | attribution/build.go:38-42 | absent exactly where no inserted entry covers; elsewhere the closed form, canonical |
| BuildLaws.PermutedBuild | attribution/build.go:111-137 | permuting the stream behind an address's first covering entry changes only disputed ext values there |
| BuildLaws.ReplayedBuild | attribution/build.go:111-137 | building from a stream twice over leaves the same tree, node for node |
| BuildLaws.CombinedBuild | attribution/pipeline.go:127-143 | cloud stream first: reputation adds categories under cloud networks and stands alone elsewhere |
| Commuting.PiecesReach | attribution/asn.go:119-184 | an entry the tree treats alike in whole and in pieces: the pieces deliver its record once to each of its addresses, or none at all if it is refused, stamped by the owner, and nothing elsewhere |
| Commuting.EnrichedReaching | attribution/asn.go:101-161 | the enriched stream delivers everywhere the original records in order, each stamped by its owner row |
| Commuting.EnrichmentCommutes | attribution/asn.go:101-161 | Build of the enriched stream succeeds with Build of the stream and holds its records, stamped; the first provider's entries there are of one family |
| Commuting.EnrichedAsn | attribution/asn.go:92-100 | the stored asn and as_org are those of an input row that starts first among those holding the address, absent when none does; the rest is unchanged |
| Commuting.HighIsV6 | attribution/build.go:57 | above 2^32 only v6 entries cover an address |
| MappedCuts.CommutesExactlyWhen | attribution/asn.go:163-184 | the pieces of an entry deliver to every address what the entry would, stamped, exactly when the tree treats network and pieces alike and, where it takes them, the network is clear of mapped space or no row boundary splits ::fffe:0:0/95 |
| MappedCuts.AcceptedCommutesExactlyWhen | attribution/asn.go:163-184 | for a tree that takes every network inside the entry, exactly when it is clear of mapped space or no row boundary splits ::fffe:0:0/95 |
| MappedCuts.MappedPieceReachesV4 | attribution/asn.go:163-184 | with a table NewASNTable builds, an entry for ::fffe:0:0/95 reaches all of IPv4 although it covers none of it |
| SharedSlots.EnrichedExactlyWhen | attribution/asn.go:101-161 | whatever families meet at an address, the record is the plain one with the stamps of the first provider's entries in order, and one owner's stamp exactly when they add up to it |
| SharedSlots.OwnerShowsExactlyWhen | attribution/asn.go:163-184 | at a slot both families may cover, one owner's stamp is what is stored exactly when, by which families cover and which covers last, it hides or is confirmed by the other owner |
| SharedSlots.SharedSlotMixesRows | attribution/build.go:57 | hosts n and ::n of one provider: the stored ASN is of one row and the stored org of another, with a table NewASNTable builds |
| IpToAsn.Parse | plugins/asn/iptoasn/iptoasn.go:110-152 | one pass with the ext cache yields the pieces of each coalesced row with the ext of its ASN's first row, or an error for a bad range |
| IpToAsn.CachedExt | plugins/asn/iptoasn/iptoasn.go:120-129 | the cache holds, per ASN seen, the ext of its first row |
| AsnPaths.AsnPathsAgree | plugins/asn/iptoasn/iptoasn.go:105-152 | native non-overlapping rows: the stored ASN is that of the v6 owner if there is one, else of the v4 owner; for each family, exactly when that is the ASN enrichment stamps; the record is the plugin's, from its feed, with nothing but ext |
| AsnPaths.BadRangeAborts | plugins/asn/iptoasn/iptoasn.go:130-136 | a build of the standalone database aborts exactly when a coalesced row's bounds are no range of one family |
| AsnPaths.MappedRowItems | plugins/asn/iptoasn/iptoasn.go:130 | a row with v4-mapped bounds yields what the row with IPv4 bounds does |
| AsnPaths.CoalescedNative | attribution/asn.go:59-65 | coalesced rows start and end where input rows do, so they too are native and leave mapped space whole |
| AsnPaths.SameExtExactlyWhen | plugins/asn/iptoasn/iptoasn.go:120-129 | both paths store the same ext at every address if rows of one ASN have one org, and only then where families share no slot |
| AsnPaths.SecondOrgIsLost | plugins/asn/iptoasn/iptoasn.go:120-129 | two rows of one ASN with different orgs: at the second, the stored org is the first row's |
| Reading.DB.Lookup | attribution/reader.go:80-95 | miss, corrupt record or hit exactly as the tree and data say, with the matched network |
| Reading.NetworkResolves | attribution/attribution.go:46-53 | the reported network contains the address and resolves throughout to the same record; a mapped query reports the plain one |
| Reading.NetworkIsWalked | attribution/attribution.go:46-53 | the reported network is the block of a walked leaf, the tree node that holds the record |
| Reading.WalkedNetworkIsMatched | attribution/reader.go:192-212 | the walk names the network a lookup matched, except where a plain v6 query meets a leaf inside ::/96, which the walk names as IPv4 |
| Reading.NodeNames | attribution/reader.go:207 | the walk names a leaf by its block, as native IPv4 exactly inside ::/96 |
| Reading.DB.Contains | attribution/reader.go:110-112 | true exactly when the decode path finds something |
| Reading.DB.LookupProvider | attribution/reader.go:126-143 | the indexed answer equals the decoded one |
| Reading.IdentityAgrees | attribution/reader.go:120-143 | the fast path names the provider and region of the record the full lookup decodes, and misses and fails with it |
| Reading.DB.BuildIndex | attribution/reader.go:150-168 | succeeds exactly when every walked record decodes, covers exactly their offsets, and otherwise changes nothing |
| Reading.ReachableIsWalked | attribution/reader.go:150-168 | every offset a lookup can reach is an offset of the walk |
| Reading.Networks | attribution/reader.go:195-212 | the consumer sees the walk until it stops or a record does not decode |
| Reading.LeavesOrdered | attribution/reader.go:192-194 | the walk is ascending, aligned and disjoint |
| Reading.NodePrefixBounds | attribution/export.go:65-90 | the integer bounds of an exported network are its tree block |
| Reading.ExportCSV | attribution/export.go:25-62 | one row per walked network with its bounds and record; which of bad record, refused write, failed flush or success ends it, after how many rows |
| Reading.ExportAgrees | attribution/export.go:11-29 | an address is found exactly when exactly one row's integer range holds it, and that row has its record |
| Verifying.ReadBack | attribution/build.go:99-101 | a written tree finds the same addresses with the same records, and stores each record once |
| Verifying.LookupAfterBuild | attribution/build.go:38-42 | the database built from a stream answers with the closed form over the covering entries |
| Answers.AnswerFromEntries | attribution/build.go:73-137 | what a lookup decodes, said of the entries: identity of the first whose network holds the address, services, last ext words and newest time of its provider's, categories of all |
| Answers.AnswerUnique | attribution/build.go:73-137 | that description leaves a single record |
| Answers.CountsEntries | attribution/build.go:31-37 | inserted and skipped are the numbers of entries whose network the tree takes and refuses |
| Verifying.Verify | attribution/verify.go:26-55 | ok exactly when the walk is not empty, decodes and names providers; the report is the walk's aggregates |
| Verifying.Tally | attribution/verify.go:27-54 | counts by family and provider add up to the total; oldest and newest are the extremes of the times present |
| Verifying.ReportMeaning | attribution/verify.go:8-22 | the report counts the leaves by provider and by family of their records, and gives the extreme positive timestamps |
| Publishing.BuildFile | attribution/sync.go:30-96 | whatever fails or crashes, the target is the previous database or a complete one that passed both guards; errors leave it untouched; it succeeds exactly when nothing it needs fails and the build is publishable |
| Publishing.SucceedsExactlyWhen | attribution/sync.go:13-29 | when a run publishes, down to the stream and the database written: nothing aborts, something is inserted, the skipped share and the lost share are within bounds, every network decodes and names a provider |
| Publishing.SkipGuard | attribution/sync.go:60-67 | off, or at most maxSkip times all entries were skipped |
| Publishing.DropGuard | attribution/sync.go:80-87 | off, no previous report, or at most maxDrop times its networks were lost; no loss always passes |
| Publishing.Commit | attribution/sync.go:89-95 | the rename is crash-safe, and durable once the directory was fsynced |
| Publishing.StagedSafe | attribution/sync.go:45-58 | until the rename no crash can show anything new under the target |
| Publishing.CheckWalk | attribution/sync.go:69-87 | verification and drop guard together accept exactly the publishable walks |
| Publishing.PublishedStep | attribution/sync.go:80-95 | a successful run is a guarded step from the report it was given |
| Publishing.DropGuardSeries | attribution/sync.go:80-87 | after k successful runs at least (1-d)^k of the networks remain, some remain, and counts add up |
| HotSwap.KeepsInv | server/service.go:63-118 | every atomic step keeps handle ownership, mutex discipline, reader entitlement and counters |
| HotSwap.NoReadAfterClose | server/service.go:16-20 | in any interleaving a lookup holds a closed handle only if overdue or after Close; within the grace period exactly when it holds the handle Close closed |
| HotSwap.FetchAfterCloseReadsClosed | server/service.go:107-118 | in any run, a lookup that loads the handle after Close has closed it gets a handle closed once |
| HotSwap.TimelyLookupsSafe | server/service.go:77-84 | timely lookups that do not overlap or follow Close never hold a closed handle |
| HotSwap.ClosedOnce | server/service.go:85-118 | a handle is closed at most once; when all is quiet every handle but an open current one was closed exactly once |
| HotSwap.CountersConsistent | server/service.go:124-160 | hits plus errors never exceed lookups at any instant |
| HotSwap.CountersExact | server/service.go:124-160 | in every state of every run: lookups begun, refused or failed, and found; each is a hit, an error, a miss or in flight |
| HotSwap.GraceHeld | server/service.go:16-20 | a replaced handle stays open for thirty seconds and may be closed from then on |
| Freshness.NeverOlder | server/service.go:85-103 | with sequential reloads the served database never gets older |
| Freshness.OlderExactlyWhen | server/service.go:85-103 | in any run it gets older exactly when a handle opened before a replacement is swapped in after one opened after it |
| HotSwap.LookupAfterCloseReadsClosed | server/service.go:107-118 | a lookup started after Close reads the closed handle |
| Freshness.OverlappingReloadsServeOlder | server/service.go:85-103 | a run that serves the newer version and later the older one |
| Serving.ServeNeverOlder | cmd/cloudattr/serve.go:47-68 | in any life of the program the served database never gets older |
| Serving.NoReloadDuringClose | cmd/cloudattr/serve.go:47-73 | while Close runs and after it no reload is under way, and none starts |
| Serving.SafeUntilClose | cmd/cloudattr/serve.go:70-73 | within the grace period a lookup holds a closed handle only if Close closed it |
| Serving.ClosedReadExactlyWhen | cmd/cloudattr/serve.go:148-157 | once Close closed the handle, a lookup may yet load it exactly when a request is left: an HTTP one, after the timeout |
| Serving.GivenUpLate | cmd/cloudattr/serve.go:148-153 | the HTTP server is given up only after five seconds |
| Serving.LateLookupReadsClosed | cmd/cloudattr/serve.go:148-157 | a life in which a request outlasts the HTTP shutdown and reads the handle Close closed |
| ServiceCalls.Service.Reload | server/service.go:85-103 | an uninterrupted reload takes the protocol's steps: refused, discarded after Close, or swapped with a timer for the old handle |
| ServiceCalls.Service.Close | server/service.go:107-118 | the first Close closes the current handle once, a second does nothing |
| ServiceCalls.Service.Lookup | server/service.go:124-140 | counters move by the outcome along the protocol's steps, and an open service hands out an open handle |
| Collecting.CollectFeed | attribution/pipeline.go:203-221 | open error or parsed pairs with wrapped errors, to any consumer |
| Collecting.FeedContributes | attribution/pipeline.go:201-221 | a single error naming plugin and feed, or an item per parsed pair with entries unchanged and errors so named |
| Collecting.FailingFeedAborts | attribution/pipeline.go:112-114 | the stream has an error exactly when some feed does not open or parse, and Build then fails |
| Collecting.CollectedUpToFailure | attribution/pipeline.go:112-125 | everything before the first failing feed is delivered, without error |
| Collecting.WorksInOrder | attribution/pipeline.go:115-125 | plugins in the order given, and the feeds of each in the order it lists them |
| Collecting.ErrorOfFeed | attribution/pipeline.go:185-199 | a feed fails with its open error or else the first error of its parser, and only then |
| Collecting.ReportsFailing | attribution/pipeline.go:162-175 | the failing feeds are reported once each, in order, by plugin, ref and reason, and no other |
| Collecting.BufferFeed | attribution/pipeline.go:185-199 | all of a feed, or nothing and its first error |
| Collecting.Collect | attribution/pipeline.go:115-125 | the consumer gets its share of all feeds in order |
| Collecting.CollectResilient | attribution/pipeline.go:162-181 | the consumer gets its share of the healthy feeds; failing feeds before the one that filled it are reported once each, all of them on a full drain |
| Collecting.ResilientRefines | attribution/pipeline.go:156-181 | no errors, and exactly Collect over the clean feeds; every feed is either clean or reported |
| Collecting.SameWhenClean | attribution/pipeline.go:156-181 | with only clean feeds both collections are the same stream and nothing is reported |
| Collecting.ConcatEntries | attribution/pipeline.go:133-143 | any number of streams: each begins after all of the one before, to any consumer |
| Collecting.ChainedPair | attribution/pipeline.go:127-132 | two streams chain to the concatenation that BuildLaws.CombinedBuild is about |

## Left out

- Inverted.MeaningKeptExactlyWhen: leaves out rows whose two bounds are of different families or not addresses at all; what an address range means there is open.
- Commuting.EnrichmentCommutes: leaves out, like Commuting.PiecesReach, Commuting.EnrichedReaching and Commuting.EnrichedAsn, entries of which the tree takes one part and refuses another, and networks around mapped space that a row boundary cuts; MappedCuts.CommutesExactlyWhen shows that each of these does change what the entry delivers.
- SharedSlots.EnrichedExactlyWhen: is about the same streams.
- Passing.EnrichedSkipsNoFewer: is about the same streams; Passing.EnrichedOdd and Passing.EnrichedSkipsAlike are not so limited.
- AsnPaths.AsnPathsAgree: leaves out rows that reach around mapped space with a boundary inside `::fffe:0:0/95`, whose pieces would be moved to IPv4, and trees that refuse part of a coalesced row.
- Reading.NetworkResolves: assumes, like Reading.NetworkIsWalked, that a mapped query ends inside the v4 subtree, which is how the writer lays out its alias of `::/96`.
- Reading.DB.Lookup: takes valid addresses only; what the reader library does with the zero address is not visible.
- ServiceCalls.Service.Reload: its contract, like that of Close and Lookup, is for one call running alone; interleaving is covered by the state machine, whose steps the contract names.
- IpToAsn.Parse: starts from decoded rows; the TSV and gzip decoding of `ParseTable` and its string interning are I/O.
- 6to4 and Teredo aliases, reserved networks and fixed tree nodes: only an abstract refusal of a network is modelled.
- MMDB byte layout: `encode` and `open` are parameters of `Publishing.BuildFile`, and `Verifying.WriteTo` models the written file as a tree of offsets with a data section.
- CSV text and quoting: a row is a tuple with integer bounds.
- IPv6 zones of `netip.Addr`, locale and Unicode: strings are sequences of characters ordered by code.
- Sub-second timestamps: `Time` keeps seconds, as the database does.
- `source.go` fetching, digests, resolvers and registries: I/O and table lookups.
- Serving.LateLookupReadsClosed: ends with the program's exit, which is not part of this model; the lookup has the time between Close and that exit.
- HTTP and gRPC handlers, command-line flags and `Stats`: plumbing around the service.
- Floating-point rounding of the guards.
