# Verified model of the laboratory inventory backend

A Dafny model of the parts of the backend that carry state or encode data, with
proofs of what they promise. Each module follows one part of the program.

| files | what they model |
|---|---|
| `Bytes`, `PackBits`, `Media`, `Raster`, `RasterReader`, `PrintedJob` | the label raster encoder: from page bitmaps to printer bytes (PackBits is TIFF Revision 6.0, Section 9), a reader of the format, and what a job says to it |
| `CategoryPaths`, `CategoryTree`, `CategoryStore`, `RequiredParameters` | the category tree with its materialised paths: create, move, rename and delete, as functions on the table and as the statements that change it row by row |
| `CategoryInterleaving`, `CategorySerialOrder`, `CategoryRaces` | the same transactions interleaved, under row locks, and when they come to running one after the other |
| `BorrowProtocol` | borrow requests as interleaved transactions under row locks |
| `Idempotency` | idempotency keys as interleaved transactions |
| `Nonces`, `CanonicalText`, `Signatures` | federation: replay protection and request signing |
| `Pairing`, `PairingRuns`, `PairingAgreement`, `PairingOverlap` | federation: pairing two nodes, alone and side by side with others |
| `GuestLinks`, `MergeInterleaving` | federation: guest links with their shadow accounts, and merges of links side by side |
| `OptionLists`, `ParameterValues`, `EnumMigrations`, `MigrationTasks`, `ParameterTypeChange` | a change of a parameter's data type with its options and stored values |
| `Wrappers`, `Text` | option and result types, trimming |

Code that changes tables or buffers in place is modelled by classes and methods,
each proved against a function or relation on the contents, about which the
lemmas then speak. Protocols whose point is interleaving are state machines:
`Step`, `Enabled`, `Apply` and a predicate `IsRun` for every sequence of enabled
steps. Table constraints (unique indexes, checks, foreign keys and what a delete
cascades to) are those of `backend/migrations`.

The clock, random ids, the network, the MAC, the digest and the reading of JSON
values enter as parameters. Ids are integers, drawn so that nobody has them yet.

## What turned out not to hold

- Replacing the options of an enum (`replace_options`) does not always leave the
  incoming list: an entry without an id whose code is the stored code of an option
  that another entry claims by id updates that same option, and one of the two is
  lost. `OptionLists.ResultIsTheList` is the exact condition.
- Nor can two options exchange their codes in one update, because the unique
  index is met after every statement (`OptionLists.ExchangingCodesIsRefused`,
  exact condition in `CodeIsFreeUnlessBlocked`).
- A certificate pin may be given in upper case, says the validation; the table
  holds lower case only. Such a pairing is accepted remotely, spends its code and
  then always fails locally (`Pairing.UpperCasePinHalfPairs`). The exact condition
  for a pairing to complete is in the contract of `CreateTrust`.
- Overlapping pairings between the same nodes can leave them with different
  secrets (`PairingOverlap.OverlappingPairingsDisagree`), but need not
  (`OverlappingPairingsAgree`). `PairingAgreement.AgreementIsExact` says for every
  run when two nodes agree, and `CompletedPairingStandsExactly` what must not come in
  between for a completed pairing to stand.
- "A new one gets a shadow account" fails for a remote user who comes to a second
  laboratory: the name of the shadow account does not carry the laboratory, and
  names are unique (`GuestLinks.SecondLaboratoryIsRefused`; exact condition in the
  contract of `UpsertGuestLink`). Likewise for two users of a node whose ids start with
  the same eight characters; `GuestLinks.VisitorsAreToldApart` says that, among
  visitors alone, nothing else keeps an allowed one out.
- A nonce is remembered for the TTL from its acceptance, by the database's clock,
  while the timestamp is checked before, in a different statement and by the server's.
  A copy held up in between long enough is accepted again; `ReplayNeedsDelay` and
  `DelayAllowsReplay` say how long exactly.
- A migration may name an option by a code with surrounding blanks. The lookup
  uses the code as given, the insert the trimmed one, so whether two such
  migrations both succeed depends on the order of their values
  (`EnumMigrations.OrderDecides`). The exact condition, `AllLand`, is in the contracts
  of `MigrateParameterValues`, `ChangeType` and `UpdateParameter`.
- On the way to an enum a migration can not name its option by id, though the format
  allows it: no option has an id yet (`MigrationTasks.NewEnumTakesCodesOnly`).
- The tree of categories can break when transactions overlap. A create or a move locks
  the new parent, not what is above it. If an ancestor of that parent is moved or
  renamed meanwhile, and the row is committed after the rewrite of the descendants has
  looked for them, its path is stale (`CategoryRaces.LateCreate`, `LateMove`).
  `CategoryInterleaving.InterleavedTreesExactly` is the exact condition, over all runs;
  under it the run amounts to its requests one after the other (`CategorySerialOrder`).
- A visitor can lose the right to take a request back: the account behind the link is
  what counts, and an administrator may make it something else than a guest
  (`GuestLinks.PromotedVisitorIsRefused`; exact condition in `FiledStaysCancellable`).
- The lock on a guest link does not keep a concurrent merge from deleting an account
  that was just linked, as the comment on `merge_guest_link_user` has it: the delete
  takes the new link along (`MergeInterleaving.FreshlyMergedLinkIsLost`). And two merges
  that leave a shared shadow at once orphan it (`SharedShadowIsOrphaned`). The exact
  condition for both is `MergesAreSoundExactly`.

## Model

| member | source | states |
|---|---|---|
| `TiffPackBits.PackBits` | backend/src/label_printing/raster.rs:212-236 | The output is the wire form of a canonical token list for the input: runs of at least two taken whole, literals that neither contain nor end just before a run they should have left alone, and at most 128 bytes of data to a control byte |
| `TiffPackBits.RunIsMaximal` | backend/src/label_printing/raster.rs:238-244 | The run at an index is one byte repeated, and the byte behind it differs |
| `TiffPackBits.RoundTrip` | backend/src/label_printing/raster.rs:249-270 | Unpacking by TIFF 6.0 Section 9 gives every input back, and no control byte is 128 |
| `TiffPackBits.SizeBound` | backend/src/label_printing/raster.rs:188-191 | Three times the packed size is at most four times the input plus two, so a head line packs into at most 120 bytes and its length fits the length byte |
| `TiffPackBits.CanonicalUnique` | backend/src/label_printing/raster.rs:212-236 | Two canonical token lists that expand to the same bytes are the same list |
| `TiffPackBits.PackedIsUnique` | backend/src/label_printing/raster.rs:212-236 | The packed form of an input is unique, so the contract of the packer leaves it no freedom |
| `Media.NewPage` | backend/src/label_printing/raster.rs:44-78 | A bitmap becomes a page exactly if width, height and size fit the stock; a page for supported stock is valid |
| `Media.PlacementFits` | backend/src/label_printing/media.rs:69-72 | A page of any supported stock, placed by the offset of any stock or by the fallback zero, never runs past the print head; where the offset exists, the page ends at the right margin |
| `Media.SupportedStock` | backend/src/label_printing/media.rs:104-117 | The supported stock, number by number |
| `Media.LookupFinds` | backend/src/label_printing/media.rs:119-131 | The lookup finds a stock exactly if it is supported, has the kind and width asked for and, if it is die-cut, the length |
| `Raster.BlitRow` | backend/src/label_printing/raster.rs:197-207 | Blitting draws the first dots of the row over the line from the offset on, and changes no other dot |
| `Raster.DotWritten` | backend/src/label_printing/raster.rs:201-205 | Setting the bit of a dot blackens that dot of the line and no other |
| `Raster.PushRasterRows` | backend/src/label_printing/raster.rs:181-194 | Appends one frame per row: the packed form of the one head line that shows exactly that row |
| `Raster.EncodeJob` | backend/src/label_printing/raster.rs:99-122 | No pages is the one error; otherwise the bytes are the print job for these pages, of which `PrintedJob.JobSays` tells what it reads as |
| `Raster.PushPrintInformation` | backend/src/label_printing/raster.rs:139-154 | Appends the print-information command for this media, height and page position |
| `RasterReader.HeaderReads` | backend/src/label_printing/raster.rs:139-179 | A reader of the fixed header gets media, page length, both cut flags and feed margin back |
| `RasterReader.RowsRead` | backend/src/label_printing/raster.rs:181-194 | A reader following row markers and length bytes gets every head line back and stops at the first byte after the rows |
| `RasterReader.JoinedReads` | backend/src/label_printing/raster.rs:112-119 | Parts joined by 0x0C and ended by 0x1A read as the list of their pages |
| `RasterReader.JobReadsBack` | backend/src/label_printing/raster.rs:99-122 | Every job reads back as its settings and, dot for dot, its pages, black exactly where the page is black and white outside of it |
| `RasterReader.UniquelyDecodable` | backend/src/label_printing/raster.rs:99-194 | Two jobs with the same bytes agree on cut setting, media fields, page count, heights and every dot of every line |
| `RasterReader.JobIsUnique` | backend/src/label_printing/raster.rs:99-122 | Media, cut setting and pages determine every byte of the job |
| `PrintedJob.JobSays` | backend/src/label_printing/raster.rs:99-210 | Every job, for any stock and pages, reads back with the numbers of the stock: kind byte 0x0A or 0x0B, width, length, page height, cut flags, feed margin, and every row black exactly where the page is, flush with the right margin |
| `PrintedJob.SupportedFeedMargin` | backend/src/label_printing/media.rs:73-82 | A job on supported stock says feed margin 35 if the stock is continuous and 0 if it is die-cut |
| `PrintedJob.JobStarts` | backend/src/label_printing/raster.rs:124-136 | Every job starts with 400 zero bytes and the commands for reset, raster mode and status |
| `CategoryPaths.TextTestIsPrefix` | backend/src/routes/asset_categories/service.rs:89-94 | The text test for "self or descendant" is the prefix relation on label sequences, for all sequences of valid codes |
| `CategoryPaths.RenderInjective` | backend/src/routes/asset_categories/service.rs:22-27 | Joining valid codes with dots is injective |
| `CategoryTree.ChainsAreAcyclic` | backend/src/routes/asset_categories/service.rs:56-87 | In a tree no parent chain comes back to where it started |
| `CategoryTree.PathIsReachability` | backend/src/routes/asset_categories/service.rs:89-94 | "Path under X" is exactly "X is reached by parent links" |
| `CategoryTree.CreateKeepsTree` | backend/src/routes/asset_categories/queries.rs:220-274 | Inserting an accepted row keeps the tree |
| `CategoryTree.MovedParentFits` | backend/src/routes/asset_categories/service.rs:56-87 | The check of a new parent accepts exactly the existing categories of the laboratory outside the moved subtree |
| `CategoryTree.BelowIsLonger` | backend/src/routes/asset_categories/queries.rs:331-364 | Every rewritten row has a strictly longer path than the moved category, so cutting off the old path is defined |
| `CategoryTree.NeverCollides` | backend/src/routes/asset_categories/queries.rs:331-364 | If the moved row is accepted, no subset of its descendants rewritten in any order ever produces a duplicate path |
| `CategoryTree.MoveKeepsTree` | backend/src/routes/asset_categories/service.rs:164-198 | A move with its bulk rewrite keeps the tree |
| `CategoryTree.LinksDetermineRow` | backend/src/routes/asset_categories/service.rs:22-27 | Parent links and codes determine every path and depth of a tree |
| `CategoryTree.MoveIsForced` | backend/src/routes/asset_categories/service.rs:164-198 | The table after a move is the only tree with the new link at the moved category and all other links unchanged |
| `CategoryTree.SamePathMovesNothing` | backend/src/routes/asset_categories/service.rs:164-198 | An update that leaves the path alone need not rewrite any descendant |
| `CategoryTree.DeleteKeepsTree` | backend/src/routes/asset_categories/queries.rs:366-389 | Deleting the path range keeps the tree, no surviving row pointing into it |
| `CategoryTree.SubtreeIsReachability` | backend/src/routes/asset_categories/queries.rs:366-389 | The path range that is deleted is exactly what reaches the category by parent links |
| `CategoryTree.RequestKeepsTree` | backend/src/routes/asset_categories/update.rs:189-209 | Every successful create, update or delete leaves a tree |
| `CategoryTree.RunsKeepTree` | backend/src/routes/asset_categories/update.rs:189-209 | In every state of every run of requests the table is a tree |
| `CategoryTree.CreateMeans` | backend/src/routes/asset_categories/service.rs:31-54 | A create succeeds exactly if the parent asked for, if any, is a category of the laboratory and no sibling there has the name or code; the row is what was asked for, all others stay, and each refusal has its reason |
| `CategoryTree.UpdateMeans` | backend/src/routes/asset_categories/update.rs:154-209 | An update succeeds exactly if the parent asked for is a category of the laboratory outside the subtree and no sibling there has the name or code asked for; then the row has the parent (the given one, none, or the old one), name and code asked for, laboratory and all other links stay, and each refusal has its reason |
| `CategoryTree.DeleteMeans` | backend/src/routes/asset_categories/service.rs:205-215 | A delete succeeds exactly if the category exists, and removes exactly what reaches it by parent links |
| `CategoryStore.Store.CreateCategory` | backend/src/routes/asset_categories/service.rs:31-54 | Creates the row below its parent or fails without a change, as the specification of the request says (`CategoryTree.CreateMeans`) |
| `CategoryStore.Store.UpdateCategory` | backend/src/routes/asset_categories/update.rs:154-209 | Resolves the parent, builds the path and moves; fails without a change. It does what the specification of the request says, which is what `CategoryTree.UpdateMeans` says |
| `CategoryStore.Store.MoveCategory` | backend/src/routes/asset_categories/service.rs:164-198 | Succeeds exactly if the one updated row meets the unique indexes; then the whole subtree hangs below the new path |
| `CategoryStore.Store.UpdateDescendantPaths` | backend/src/routes/asset_categories/queries.rs:331-364 | The row-by-row rewrite in any order, each row checked against the unique index, never fails |
| `CategoryStore.Store.DeleteCategory` | backend/src/routes/asset_categories/service.rs:205-215 | Clears exactly the assets filed below the category and removes exactly the categories below it; the foreign keys never object |
| `CategoryStore.NextRewriteIsFree` | backend/src/routes/asset_categories/queries.rs:331-364 | Whatever has been rewritten so far, the next row gets a free and well-defined path |
| `CategoryTree.RewriteMustBeComplete` | backend/src/routes/asset_categories/queries.rs:331-364 | A move that changes the path leaves a tree exactly if it rewrites every row below the moved category |
| `CategoryInterleaving.StepKeepsInv` | backend/src/routes/asset_categories/queries.rs:120-147 | In any interleaving, what a transaction has read under its locks stays as it was read |
| `CategoryInterleaving.CommitIsExact` | backend/src/routes/asset_categories/service.rs:164-215 | Onto a tree, a commit of a create, an update or a delete leaves a tree exactly if it is not that of a move whose rewrite missed a row |
| `CategoryInterleaving.MissingIsLate` | backend/src/routes/asset_categories/queries.rs:331-364 | The rows a rewrite misses are exactly those that came to lie below the category after the rewrite had looked, were not on its way, and stayed |
| `CategoryInterleaving.ArrivalIsPutBelow` | backend/src/routes/asset_categories/service.rs:31-87 | While the table is a tree, a row comes in only by the commit of a create or a move under a proper descendant of the category that is being moved, never directly under it |
| `CategoryInterleaving.TreesExactly` | backend/src/routes/asset_categories/service.rs:164-215 | In any interleaving the committed table is a tree all along exactly if no move commits having missed a row |
| `CategoryInterleaving.InterleavedTreesExactly` | backend/src/routes/asset_categories/service.rs:164-215 | ... that is, exactly if no move commits over a row that another transaction committed under a proper descendant of the moved category after the rewrite had looked |
| `CategorySerialOrder.CommitIsSerial` | backend/src/routes/asset_categories/service.rs:31-215 | A commit leaves a tree exactly if it does to the table it meets what its request, run alone there, would do |
| `CategorySerialOrder.SerialExactly` | backend/src/routes/asset_categories/service.rs:31-215 | In any interleaving the committed table is all along that of the committed requests run one after the other in the order of their commits, all successful, exactly if no move commits over a late row |
| `CategorySerialOrder.GoesThrough` | backend/src/routes/asset_categories/service.rs:31-215 | Where no lock is held, a transaction whose request would succeed alone goes through to its commit and leaves what the request alone would leave |
| `CategoryRaces.LateCreate` | backend/src/routes/asset_categories/service.rs:31-54 | A run in which a create below a renamed category lands late, and the table stops being a tree |
| `CategoryRaces.LateMove` | backend/src/routes/asset_categories/service.rs:56-87 | The same with a move of another category |
| `RequiredParameters.WalkMeetsAncestors` | backend/src/routes/assets/queries.rs:808-839 | The walk up the parent chain finds a parameter exactly if an assignment at a category it meets requires it |
| `RequiredParameters.QueryIsWalk` | backend/src/routes/assets/queries.rs:808-839 | The query by path containment returns exactly what the walk up the parent chain finds |
| `RequiredParameters.ValidateRequiredParameters` | backend/src/routes/assets/service.rs:133-159 | Accepts exactly if the asset has a value for every parameter found by that walk |
| `BorrowProtocol.StepKeepsProtection` | backend/src/routes/borrow_requests/service.rs:84-146 | Any step of any transaction leaves intact what every other transaction has read under its locks |
| `BorrowProtocol.StepKeepsOnePending` | backend/src/routes/borrow_requests/service.rs:105-114 | No step creates a second pending request for an item, by lock, check and insert alone |
| `BorrowProtocol.OnePendingPerItem` | backend/src/routes/borrow_requests/queries.rs:168-188 | In every reachable state of every interleaving an item has at most one pending request |
| `BorrowProtocol.ReviewTimesMarkDecisions` | backend/src/routes/borrow_requests/queries.rs:244-311 | In every reachable state the review time is set exactly for approved and rejected requests |
| `BorrowProtocol.DecidedIsFinal` | backend/src/routes/borrow_requests/resolve.rs:61-69 | A request that has left pending is never changed again, except that the requester or link it refers to may be deleted |
| `BorrowProtocol.ApprovalBorrows` | backend/src/routes/borrow_requests/resolve.rs:70-110 | The step that approves a request finds its item available and leaves it borrowed |
| `BorrowProtocol.ApprovalsAreSeparated` | backend/src/routes/borrow_requests/resolve.rs:74-78 | Between two approvals of an item lies an outside change that made it available again |
| `BorrowProtocol.OnlyApprovalsTouchItems` | backend/src/routes/borrow_requests/service.rs:148-194 | Filing, rejecting and cancelling never change an item |
| `BorrowProtocol.CreateMeans` | backend/src/routes/borrow_requests/service.rs:57-152 | A create commits only for a guest of the laboratory and an available item of it; it stores one new pending request with that item, requester and link, and changes nothing else |
| `BorrowProtocol.ResolveMeans` | backend/src/routes/borrow_requests/resolve.rs:61-110 | A decision commits only for an administrator or user of the laboratory of a pending request; it stores the decision with its time, and an approval lends out the item, which was available |
| `BorrowProtocol.CancelMeans` | backend/src/routes/borrow_requests/service.rs:154-222 | A cancellation commits only for a guest of the laboratory who filed the pending request or comes by its link, and changes nothing else |
| `BorrowProtocol.CreateGoesThrough` | backend/src/routes/borrow_requests/service.rs:84-152 | After any run a guest can file a request for an available, unlocked item without a pending one |
| `BorrowProtocol.ResolveGoesThrough` | backend/src/routes/borrow_requests/resolve.rs:61-110 | After any run an administrator or user of the laboratory can decide a pending, unlocked request |
| `BorrowProtocol.CancelGoesThrough` | backend/src/routes/borrow_requests/service.rs:154-196 | After any run whoever filed a pending, unlocked request or comes by its link can cancel it |
| `Idempotency.CommitsAtMostOnce` | backend/src/idempotency/persistence.rs:99-127 | Of all processing transactions of one user and key at most one commits |
| `Idempotency.ProcessingIsExclusive` | backend/src/idempotency/persistence.rs:105-120 | Two open transactions never process the same user and key |
| `Idempotency.AnswersAreTheCommittedResponse` | backend/src/idempotency/persistence.rs:16-47 | Whoever is answered, at any time, gets the response the one commit saved |
| `Idempotency.SavedResponseIsThere` | backend/src/idempotency/persistence.rs:121-127 | The missing saved response is unreachable, and every answer rests on a commit |
| `Idempotency.CommittedWasWritten` | backend/src/idempotency/persistence.rs:49-97 | What is committed, and so what every later caller is answered, is the response that the processing caller handed over |
| `Idempotency.RollBackFreesKey` | backend/src/idempotency/persistence.rs:99-127 | After a rollback the key is neither saved nor being processed |
| `Idempotency.FreeKeyIsProcessed` | backend/src/idempotency/persistence.rs:99-127 | After any run, where the key is free, a new caller processes the request and saves its response, and the next one is answered with it |
| `Nonces.NonceSeparation` | backend/src/routes/federation/queries.rs:388-423 | Two acceptances of the same nonce from the same node are at least the TTL apart, in every interleaving |
| `Nonces.ReplayNeedsDelay` | backend/src/routes/federation/security.rs:212-269 | For a second acceptance of the same request, the time it was held up between window check and nonce insert, plus the lead of the database's clock over the server's, must reach the age the request had when first accepted |
| `Nonces.NoReplayWithinASecond` | backend/src/routes/federation/security.rs:212-269 | Held up for less than a second, with a lead of at most `skew` seconds, a request stamped more than `skew` seconds before the second of its acceptance is never accepted again |
| `Nonces.DelayAllowsReplay` | backend/src/routes/federation/security.rs:212-269 | The bound is exact: for any request, any two clocks and any delay that long, some run accepts it twice |
| `Signatures.VerifySignatureIsEquality` | backend/src/routes/federation/security.rs:338-358 | The comparison that folds all differences accepts exactly the expected bytes |
| `Signatures.MatchingCredentialsVerify` | backend/src/routes/federation/security.rs:131-263 | Signed and checked with the same secret and key version, a request passes exactly if its user is of an allowed type, has a name and the time is in the window |
| `CanonicalText.LinesInjective` | backend/src/routes/federation/security.rs:319-332 | Joining fields without line breaks by line breaks loses nothing |
| `Signatures.TextFixesFields` | backend/src/routes/federation/security.rs:306-332 | Two requests have the same canonical text only if they agree on every signed field, the method up to case |
| `Signatures.PassingIsSigned` | backend/src/routes/federation/security.rs:212-263 | The signature of a request that passes is that of the canonical text of exactly what arrived, under the secret on file, for an active node and trust |
| `Signatures.RefusalsMean` | backend/src/routes/federation/security.rs:174-277 | Which check a refused request failed, in terms of what arrived and what is on file |
| `Signatures.TextIs` | backend/src/routes/federation/security.rs:306-332 | The canonical text, field by field |
| `Signatures.PassingAgreesWithSigned` | backend/src/routes/federation/security.rs:306-358 | With a MAC that is injective in the text: a request that passes with the signature of a signed one agrees with it in every signed field, the method up to case |
| `Pairing.AgreementVerifies` | backend/src/routes/federation/security.rs:131-263 | Between nodes that agree, requests of either side pass the checks of the other, exactly under those conditions |
| `Pairing.Node.UpsertRemoteNode` | backend/src/routes/federation/queries.rs:126-183 | Refreshes or inserts the node and activates it, unless the row is not allowed or another node has its base URL |
| `Pairing.Node.ConsumePairingCode` | backend/src/routes/federation/queries.rs:363-382 | Spends a code exactly if it exists, has not been consumed, and the time is before its expiry |
| `Pairing.Node.AcceptPairing` | backend/src/routes/federation/accept_pairing.rs:93-136 | Spends the code and stores node and trust, or changes nothing at all; when it succeeds is in `AcceptanceMeans` |
| `Pairing.Node.CreateTrust` | backend/src/routes/federation/create_trust.rs:118-182 | Succeeds exactly if the network delivers and both sides can store their rows (`CompletesMeans`); then, whatever was there before, both sides hold the same secret and key version and mirrored active trusts |
| `Pairing.PinsMean` | backend/src/routes/federation/security.rs:119-129 | A pin is 64 hexadecimal digits; the table takes lower case only |
| `Pairing.AcceptanceMeans` | backend/src/routes/federation/accept_pairing.rs:93-136 | On the rows: an acceptance succeeds exactly if the secret is not blank, the code is there, unspent and not yet expired, and no other node has the base URL; then the code is spent and node and trust are stored as sent |
| `Pairing.EstablishmentMeans` | backend/src/routes/federation/create_trust.rs:150-182 | On the rows: the requesting side stores the node under the secret it drew and the key version it was told, and its trust, exactly if the answer is for the laboratory asked for and the rows fit the tables |
| `Pairing.CompletesMeans` | backend/src/routes/federation/create_trust.rs:118-182 | When a pairing completes, in terms of codes, expiry, secrets, pins and base URLs of both sides |
| `Pairing.Node.RememberNonce` | backend/src/routes/federation/service.rs:175-185 | Drops exactly the expired nonces and accepts exactly a non-empty nonce that is not remembered |
| `Pairing.SweptAndSpentMeans` | backend/src/routes/federation/queries.rs:388-423 | The nonces behind a request, in one formula: what has not expired, and the new nonce until the TTL has passed |
| `Pairing.Node.VerifyInbound` | backend/src/routes/federation/security.rs:174-277 | The checks in their order by the server's clock, then the nonce by the database's; a request refused by a check touches no nonce |
| `Pairing.UpperCasePinHalfPairs` | backend/src/routes/federation/security.rs:119-129 | A certificate pin in upper case passes validation but not the table: the remote side pairs, the requesting side always refuses |
| `Pairing.RememberingIsSweepingAndInserting` | backend/src/routes/federation/service.rs:175-185 | The two statements behind a request are the two steps of the nonce protocol, with the same outcome |
| `PairingRuns.BaseUrlsAreUnique` | backend/src/routes/federation/queries.rs:126-183 | In every reachable state no node knows two others under one base URL |
| `PairingRuns.CodesAreSpentOnce` | backend/src/routes/federation/queries.rs:360-382 | In every interleaving no pairing code is spent by two committed acceptances |
| `PairingRuns.CodesAreSpentInTime` | backend/src/routes/federation/queries.rs:363-382 | In every interleaving every spent code was spent before it expired |
| `PairingRuns.AcceptanceInOneGo` | backend/src/routes/federation/accept_pairing.rs:93-136 | Run in one go, the two steps of an acceptance do exactly what the acceptance does as one transaction, and leave the tables alone where it fails |
| `PairingAgreement.SideStandsExactly` | backend/src/routes/federation/queries.rs:126-230 | One side of a pairing stands exactly if the last half of a pairing that wrote its row offered that secret and its trust was activated and not revoked since |
| `PairingAgreement.AgreementIsExact` | backend/src/routes/federation/create_trust.rs:118-182 | In any run, whatever overlaps or half-finished pairings it holds: two nodes agree exactly if both rows were last written under the same secret and neither trust was revoked after its last activation |
| `PairingAgreement.AgreementHasOneWriter` | backend/src/routes/federation/create_trust.rs:118-182 | With distinct secrets: exactly if one and the same pairing wrote both rows last, with both trusts on |
| `PairingAgreement.CompletedPairingStandsExactly` | backend/src/routes/federation/create_trust.rs:118-182 | After a pairing of two nodes is completed, both hold its secret and trusts exactly if since its acceptance no other pairing successfully wrote the accepter's row or had its trust revoked, and since its completion the same for the requester |
| `PairingAgreement.CompletedPairingAgrees` | backend/src/routes/federation/create_trust.rs:118-182 | A pairing that nothing of that kind disturbs leaves both nodes in agreement, whatever earlier pairings left behind |
| `PairingOverlap.OverlappingPairingsDisagree` | backend/src/routes/federation/create_trust.rs:118-182 | A run in which two overlapping pairings both complete, in the opposite order of their acceptance, and the nodes agree on nothing |
| `PairingOverlap.OverlappingPairingsAgree` | backend/src/routes/federation/create_trust.rs:118-182 | The same two pairings, overlapping as well, completed in the order of their acceptance: the nodes agree |
| `GuestLinks.WelcomeKeepsConsistency` | backend/src/routes/federation/service.rs:105-135 | A first visit keeps one link per key, existing guests, no orphaned shadow and no dangling request |
| `GuestLinks.DroppingAShadow` | backend/src/routes/federation/queries.rs:654-674 | Deleting an unreferenced shadow takes no link along |
| `GuestLinks.MergeKeepsConsistency` | backend/src/routes/federation/service.rs:154-169 | A merge keeps all of that and points the link at its target |
| `GuestLinks.Guests.StoreGuestLink` | backend/src/routes/federation/service.rs:105-139 | Creates shadow and link (`WelcomeMeans`), or keeps a link made meanwhile and takes the new account back; fails exactly on a taken shadow name or a row not allowed |
| `GuestLinks.Guests.UpsertGuestLink` | backend/src/routes/federation/service.rs:83-141 | Succeeds exactly for an allowed visit that is linked already or whose shadow name is free (`NameIsFreeExactly`); the identity is the link under that key |
| `GuestLinks.Guests.MergeGuestLink` | backend/src/routes/federation/merge_guest_link.rs:96-129 | Succeeds exactly for a link of the laboratory and a guest of it; the old shadow goes when nothing else points at it |
| `GuestLinks.ShadowNamesAgree` | backend/src/routes/federation/service.rs:143-147 | Two visitors get the same shadow name exactly if node and user start with the same eight characters |
| `GuestLinks.TouchMeans` | backend/src/routes/federation/queries.rs:544-580 | A visit that finds its link refreshes the name there and changes nothing else |
| `GuestLinks.WelcomeMeans` | backend/src/routes/federation/service.rs:105-139 | A first visit adds a shadow guest of the laboratory under the shadow name, and a link at it, and changes nothing else |
| `GuestLinks.MergeMeans` | backend/src/routes/federation/service.rs:154-169 | A merge points its link at the target and deletes the account left behind exactly if it is a shadow that no other link points at |
| `GuestLinks.NameIsFreeExactly` | backend/src/routes/federation/service.rs:143-147 | Where all accounts are shadows of linked visitors, a shadow name is free exactly if no linked visitor shares both prefixes |
| `GuestLinks.VisitorsAreToldApart` | backend/src/routes/federation/service.rs:83-147 | In any run of visits from empty tables an allowed visitor who is not linked yet gets a link exactly if no linked visitor shares both prefixes |
| `GuestLinks.LinksAndShadowsMatch` | backend/src/routes/federation/service.rs:83-169 | In every reachable state: one link per key, every link at an existing account, every shadow behind some link |
| `GuestLinks.DeleteKeepsConsistency` | backend/src/routes/users/queries.rs:278-320 | Deleting any account takes its links along and leaves links, shadows and requests consistent |
| `GuestLinks.NextKeeps` | backend/src/routes/federation/queries.rs:517-674 | A step loses a link exactly if it deletes the account the link points at; no visit and no merge loses a link, touches a real account or parts a request from its link; a real account is changed only by an update of it |
| `GuestLinks.LostOnlyWithItsGuest` | backend/src/routes/federation/queries.rs:517-674 | Over any run a link is lost only with the account it points at; until then it keeps id and key |
| `GuestLinks.RealAccountsLast` | backend/src/routes/federation/queries.rs:654-674 | Over any run an account that is no shadow lasts until an administrator deletes it, and stays as it is until an administrator updates it |
| `GuestLinks.KnownStaysKnown` | backend/src/routes/federation/queries.rs:544-580 | A visitor linked once is recognised under the same link id until the account behind it is deleted |
| `GuestLinks.GuestUnlessDemoted` | backend/src/routes/users/queries.rs:208-266 | The account behind a link is a guest of the laboratory exactly unless an update made it something else and no later one made it a guest of it again |
| `GuestLinks.FiledStaysCancellable` | backend/src/routes/borrow_requests/service.rs:213-220 | While the link lasts, and through any number of merges, whoever arrives under its key may cancel a request filed under it exactly unless the account behind the link was made something else than a guest of the laboratory |
| `GuestLinks.MayCancelMeans` | backend/src/routes/borrow_requests/service.rs:154-222 | The checks of a cancellation on the rows: the account behind the link is a guest of the laboratory, where the request was filed, by this link or this account |
| `GuestLinks.PromotedVisitorIsRefused` | backend/src/routes/federation/borrowing/respond.rs:115-150 | At an input: the shadow behind the link is made a user of the laboratory, and the visitor may not cancel what they filed |
| `MergeInterleaving.CommitIsSoundExactly` | backend/src/routes/federation/service.rs:154-169 | A merge orphans no shadow and loses no link exactly if what it found out about the shadow it left is still true at its commit |
| `MergeInterleaving.MergesAreSoundExactly` | backend/src/routes/federation/merge_guest_link.rs:96-129 | In any interleaving of merges no shadow is orphaned and no link lost exactly if no merge commits on an answer that has become stale |
| `MergeInterleaving.CommitIsSerialExactly` | backend/src/routes/federation/service.rs:154-169 | A merge does what it would do alone at its commit exactly if its answer is still true: its link at the target, no other link moved, and the account left behind deleted exactly if it was a shadow kept by this link only |
| `MergeInterleaving.AnswersChangeByMerges` | backend/src/routes/federation/queries.rs:635-674 | An answer becomes stale only by another merge that commits a link onto the account or off it |
| `MergeInterleaving.SharedShadowIsOrphaned` | backend/src/routes/federation/service.rs:154-169 | A run in which two merges leave a shared shadow at once, and it stays without a link |
| `MergeInterleaving.FreshlyMergedLinkIsLost` | backend/src/routes/federation/service.rs:149-169 | A run in which a link is merged onto a shadow that another merge has found unreferenced, and is deleted along with it |
| `GuestLinks.SecondLaboratoryIsRefused` | backend/src/routes/federation/service.rs:143-147 | Shadow names do not carry the laboratory: a visitor linked in one laboratory is refused in the next |
| `OptionLists.ResultIsTheList` | backend/src/routes/asset_parameters/service.rs:196-251 | The options end up being exactly the incoming list if and only if no entry without an id carries the stored code of an option another entry claims by id |
| `OptionLists.TakingOverACodeLosesAnOption` | backend/src/routes/asset_parameters/service.rs:221-246 | A list for which two entries update the same row, and one of them is lost |
| `OptionLists.CodeIsFreeUnlessBlocked` | backend/src/routes/asset_parameters/queries.rs:460-483 | The unique code constraint is met at an entry exactly unless the entry takes a code whose holder is only changed later |
| `OptionLists.ExchangingCodesIsRefused` | backend/src/routes/asset_parameters/service.rs:238-246 | Two options cannot exchange codes in one update |
| `OptionLists.ListIsStored` | backend/src/routes/asset_parameters/service.rs:196-251 | Without a collision each entry's row is stored under the option that has its id or, without an id, its code, or else under an id nobody had; and nothing else is stored |
| `OptionLists.BlockedMeans` | backend/src/routes/asset_parameters/service.rs:221-246 | An entry is blocked exactly if it has an id and a later entry claims by id the option that holds its code |
| `MigrationTasks.ReplacesMeans` | backend/src/routes/asset_parameters/service.rs:196-251 | A list replaces the options exactly if its ids are there, every option a value points at has an entry standing for it, and no entry with an id takes the code of an option that a later one claims by id |
| `ParameterValues.ValidateValueMigrations` | backend/src/routes/asset_parameters/update.rs:383-424 | Accepts exactly the lists with one migration for each stored value and none besides |
| `ParameterValues.OneForEachCounts` | backend/src/routes/asset_parameters/update.rs:383-424 | One migration for each value: the migrated values are the stored ones, and there are as many migrations as values |
| `ParameterValues.MigratedMeans` | backend/src/routes/asset_parameters/queries.rs:669-713 | A migrated value has the new type and in its columns what the target reads as; an option is the one named, off the enum there is none, and the columns of other types stay |
| `MigrationTasks.ReadableMeans` | backend/src/routes/asset_parameters/service.rs:354-380 | What it takes to read a target as a type that is no enum; earlier columns of the row never stand in the way |
| `MigrationTasks.NewEnumMeans` | backend/src/routes/asset_parameters/update.rs:436-455 | A new enum gets its options from a list without repetitions and ids or, without a list, from migrations of which one brings the code of an option |
| `MigrationTasks.SameTypeMeans` | backend/src/routes/asset_parameters/service.rs:67-122 | Without a change of type only an enum takes options, and a list for it is not empty and repeats neither id nor code |
| `ParameterValues.ValidateUpdateOptionList` | backend/src/routes/asset_parameters/service.rs:95-122 | Accepts exactly the non-empty lists without repeated ids or codes |
| `ParameterValues.TargetsOfMigrations` | backend/src/routes/asset_parameters/service.rs:298-301 | The table of migrations by value holds, for a list without repetitions, every migration |
| `ParameterValues.ChangesKeepEarlierReadings` | backend/src/routes/asset_parameters/queries.rs:669-713 | Over any chain of type changes every column holds what was last written while the parameter had its type (the unit: number or range), and no option outlives the enum |
| `ParameterTypeChange.Parameter.DeleteOptionsExcept` | backend/src/routes/asset_parameters/queries.rs:487-519 | Deletes the other options exactly if no value points at them |
| `ParameterTypeChange.Parameter.WriteOption` | backend/src/routes/asset_parameters/queries.rs:395-483 | Writes one option exactly if no other has its code |
| `ParameterTypeChange.Parameter.ReplaceOptions` | backend/src/routes/asset_parameters/service.rs:196-251 | Succeeds exactly if all ids are known, no value points at a dropped option and no entry is blocked (`ReplacesMeans`); then the options are the written list (`ListIsStored`) |
| `ParameterTypeChange.Parameter.ResolveMigrationTarget` | backend/src/routes/asset_parameters/service.rs:307-352 | A target named by code succeeds exactly if its code is present, or can be created and is absent in trimmed form; it lands on that option, and the options grow by the created one (`CreatedIsMadeFor`) or not at all |
| `Text.TrimMeans` | backend/src/routes/asset_parameters/service.rs:332-349 | Trimming cuts off exactly the whitespace at both ends |
| `EnumMigrations.LandsMeans` | backend/src/routes/asset_parameters/service.rs:307-352 | For what a target is refused: a code that is no text, absent as given and not creatable or present when trimmed, a label that is no text or blank where an option has to be created, or an id no option has |
| `EnumMigrations.CreatedIsMadeFor` | backend/src/routes/asset_parameters/service.rs:332-349 | A created option has the trimmed code, the trimmed label or, without one, the code, and sort order 0 |
| `ParameterTypeChange.Parameter.MigrateValue` | backend/src/routes/asset_parameters/service.rs:354-380 | Rewrites or removes one value, after which every value still points at an existing option |
| `ParameterTypeChange.Parameter.MigrateParameterValues` | backend/src/routes/asset_parameters/service.rs:283-383 | Every value becomes what its migration says or is removed; off the enum this succeeds exactly if every target reads as the new type, onto the enum exactly if in the order of the values every target lands. Every new option has the code and label of the first migration that names its code |
| `EnumMigrations.OrderDecides` | backend/src/routes/asset_parameters/service.rs:307-352 | Of two targets with the same code, one with blanks around it, both land in one order and not in the other, for every code and every set of options without it |
| `EnumMigrations.OrderDecidesAtAnInput` | backend/src/routes/asset_parameters/service.rs:307-352 | The input: " a " before "a" succeeds, "a" before " a " does not |
| `EnumMigrations.TrimmedCodesLandInAnyOrder` | backend/src/routes/asset_parameters/service.rs:307-352 | Where all codes are trimmed and complete, every order succeeds |
| `MigrationTasks.AllFit` | backend/src/routes/asset_parameters/service.rs:354-380 | Migrating value by value meets no obstacle exactly if, off the enum, every target reads and, onto it, every target lands |
| `MigrationTasks.NewEnumTakesCodesOnly` | backend/src/routes/asset_parameters/service.rs:307-352 | On the way to an enum no option has an id to name yet: a successful change names every option by code |
| `ParameterTypeChange.Parameter.ChangeType` | backend/src/routes/asset_parameters/update.rs:318-364 | In the order chosen no statement meets the foreign key of a value; afterwards all values have the new type, an enum has an option and any other type none |
| `ParameterTypeChange.Parameter.UpdateParameter` | backend/src/routes/asset_parameters/update.rs:220-364 | The whole update, all or nothing, with the exact condition of success for every change of type, onto an enum as well, and for none; migrations one-to-one with the stored values, no stored value ever at a missing option, and every option that the list did not bring made for the first migration naming its code |
| `MigrationTasks.EnumHasOptions` | backend/src/routes/asset_parameters/update.rs:436-455 | A parameter that becomes an enum ends with an option, from the list or from a migration |
| `MigrationTasks.OffTheEnumNoPointers` | backend/src/routes/asset_parameters/queries.rs:661-713 | Values that have left the enum point at no option, so the options can go after them |

## Left out

- Nonces: a statement is instantaneous there and in `PairingRuns`; the moment a transaction began, which is what `now()` means in the database, is not told apart from that of the statement.
- CategoryTree.RunsKeepTree: transactions run one after another there; for interleaved ones see `CategoryInterleaving.InterleavedTreesExactly`.
- CategoryInterleaving.InterleavedTreesExactly: assets and parameter assignments are left out there; unique indexes and the foreign key are met at the commit instead of at every write, which allows more runs; a lock of any strength excludes every other.
- CategoryStore.Store.UpdateCategory: the parameter assignments and the description that an update may replace are not modelled.
- CategoryTree.CreateKeepsTree: depths and lengths are unbounded; the 32-bit depth column and the length limits of `ltree` are not modelled.
- GuestLinks.LinksAndShadowsMatch: transactions run one after another there, apart from the two of one visit; for merges side by side see `MergeInterleaving`.
- MergeInterleaving.MergesAreSoundExactly: only merges and first visits run there, laboratories and roles are left out, and the delete of an account and the commit are one step.
- GuestLinks.DroppingAShadow: an account that an uploaded file refers to cannot be deleted in the database; uploads are not modelled.
- BorrowProtocol.OnePendingPerItem: items and laboratories are never deleted there, so the requests that would go with them stay; a create takes the locks it needs and its later re-reads and audit records add nothing to the state.
- Idempotency.CommitsAtMostOnce: a processing transaction commits only through the saving of its response, as `save_response` does it; a handler that commits the transaction by itself, deleting users and the conversion of header names and values are not modelled.
- Pairing.Node.CreateTrust: base URLs enter already normalised, laboratories are never deleted, display names and the digest of the secret are not kept; whether the certificate matches its pin is part of the network outcome.
- Signatures.MatchingCredentialsVerify: headers travel unchanged (parsing them and base64 are not modelled), a uuid's text is represented by the decimal of its id, and the user type carries no surrounding blanks, as none of the program's types does.
- Pairing.Node.VerifyInbound: federation is switched on and the headers are present and well-formed; the refusals that say otherwise are not modelled.
- PairingAgreement.CompletedPairingStandsExactly: for two different nodes, and with secrets of which no two are the same; a node that pairs with itself writes one row twice and is covered by `AgreementIsExact`, which needs neither.
- ParameterTypeChange.Parameter.UpdateParameter: code, name, description and the units of the parameter itself, audit records and the limit of 256 graphemes on labels are not modelled; numbers are reals, and what a target reads as in a given type, units converted, is given with the target.
- ParameterTypeChange.Parameter.MigrateParameterValues: the order in which the query lists the values, by the names of their assets, enters as a parameter, and a request names only ids that have been drawn.
- RequiredParameters.ValidateRequiredParameters: the accepted or refused outcome only, not the name of the first missing parameter.
- Printer status and transport, address policy, HTTP handlers, permissions, audit and rollback, unit rescaling, uploads, inventory splitting and the frontend: no state worth a proof, or code that computes in floating point.
