# Verified model of the InfluxDB 2 metadata services

The project models the parts of the InfluxDB 2 backend that keep several key-value
buckets in agreement, two concurrent protocols, and a few self-contained algorithms, and
proves what they promise.

* **Storage.** `Bytes` is the lexicographic order of keys and their ascending
  enumeration. `Ids` is the 64-bit id with its codec of sixteen hexadecimal bytes, which
  keeps the order. `BoltCursor` is the bolt-backed cursor, a class with the fields of the
  source. `KvIndex` is `kv.Index`, a bucket of `foreign/primary` keys walked with a prefix
  cursor.
* **DBRP mappings.** `Dbrp` holds the four buckets, the effect of Create, Update and
  Delete, the invariant and exactly when each call keeps it. `DbrpEffects` says what
  each call answers and what readers see afterwards. `DbrpListing` is what FindMany lists, `DbrpMerge` the
  merged list in closed form, and what it repeats or hides. `DbrpService` is the class whose methods walk the indexes and update the buckets in place.
* **Dashboards.** `Dashboards`, `DashboardRuns`, `DashboardEffects` and `DashboardService` cover the dashboard
  bucket, the organization index and the cell views, and listing through the index against
  listing by a scan.
* **Authorizations.** `Authorizations` and `AuthorizationService` cover the token index
  and the id bucket, the bounded search for a free id, and the cursor hint;
  `AuthorizationRaces` interleaves the transactions of several calls. `Permissions`
  is permission matching and the check on the permissions of a new token.
* **Protocols.** `Checks` is the saga that keeps checks and tasks together, `Scheduler`
  the scrape scheduler; both are transition systems over the atomic steps of their callers
  and goroutines.
* **Algorithms.** `Durations`, `Schemas`, `UrlPaths` and `Stickers`.

State-changing operations are class methods whose `ensures` equate the new state with a
step function of the old one; the step function states the checks on the whole store
("another mapping has this triple"), the method establishes them by walking an index. The
theorems are about the step functions, over all inputs and over whole runs.

`dafny verify dfyconfig.toml` checks the project.

## Properties the code does not have

Each has a concrete input that shows it and the exact condition under which the code is
right.

* **DBRP Create** may take over another organization's mapping, because it looks its id up
  within one organization: `Dbrp.CreateMayBreak`, exact condition
  `Dbrp.CreateKeepsInvariantIff`.
* **DBRP Update** accepts a virtual mapping and stores it without index entries:
  `Dbrp.UpdateMayBreak`, `Dbrp.UpdateKeepsInvariantIff`.
* **DBRP Delete** through a bucket with the id of another organization's mapping removes
  that mapping and leaves its index entries: `Dbrp.DeleteMayBreak`,
  `Dbrp.DeleteKeepsInvariantIff`.
* **Concurrent DBRP calls**: checks and reads run before the transaction that writes, so two
  Creates can store one triple twice (`Dbrp.RacingCreatesMayBreak`,
  `Dbrp.RacingCreatesKeepInvariantIff`); the three conditions above are stated for the
  store the write finds, whatever was read before.
* **Concurrent authorization updates**: writing back a record read earlier can take a token
  that has gone to another record: `Authorizations.StaleUpdateMayBreak`,
  `Authorizations.StaleUpdateKeepsBijectionIff`; it cannot if tokens and ids are never used
  twice: `AuthorizationRaces.EveryInterleavingKeepsBijection`.
* **A deleted authorization** can be stored again by an update that read it before:
  `AuthorizationRaces.DeletedRecordReturns`, `AuthorizationRaces.MayReturnIff`.
* **FindMany** stops comparing a virtual mapping at the first default of its database, so a
  mapping with the same database and policy further down does not hide it:
  `DbrpMerge.DuplicateListed`; exact condition on stored mappings and buckets:
  `DbrpMerge.RepeatListedIff`.
* **FindMany without an organization** lets one organization's mapping hide another's bucket
  or take its default: `DbrpMerge.OtherOrganizationHides`,
  `DbrpMerge.OtherOrganizationTakesDefault`; exact conditions on stored mappings and
  buckets: `DbrpMerge.TripleListedIff`, `DbrpMerge.ListedAsDefaultIff`,
  `DbrpMerge.DefaultShownIff`; with an organization in the filter no wanted triple is lost:
  `DbrpMerge.BucketIsRepresented`.
* **FindMany without an organization** panics on a stored mapping whose database has no
  default entry, which an accepted Update of a virtual mapping leaves behind:
  `DbrpService.UpdateThenPanics`; exactly when it panics: `DbrpService.Service.FindMany`;
  exactly when an Update leads there: `DbrpService.UpdateLeavesDefaultlessIff`.
* **CreateAuthorization** reports success without storing anything when a hundred drawn ids
  are all reserved or taken: `Authorizations.SuccessMayStoreNothing`,
  `Authorizations.CreateStoresUnlessIdsRunOut`.
* **The cursor hint** of the authorization listing hides accepted records when the token is
  spelled differently in JSON or the filter names the zero user:
  `Authorizations.HintMayHide`, `Authorizations.HintNeverHidesIff`.
* **A check whose task is gone** cannot be deleted, by DeleteCheck or any other call, at any
  later time: `Checks.StrandedIsReachable`, `Checks.StrandedIsPermanent`,
  `Checks.RemovableIff`. A refused last write of a delete and a lost answer of a create both
  lead there: `Checks.RefusedDeleteStrands`, `Checks.LostAnswerStrands`.
* **A cell's own copy of its view** loses id and properties when its dashboard is stored
  (the view bucket keeps them): `DashboardRuns.ViewCopyIsReduced`,
  `DashboardRuns.CreateReadsBackIff`.
* **Removing a cell** whose id occurs twice in its dashboard takes the view of the one that
  stays: `DashboardRuns.DuplicateCellLosesItsView`, `Dashboards.RemoveCellKeepsInvariantIff`.
* **ParseDuration** refuses what FormatDuration prints for the least duration
  (`Durations.RoundTripIff`), and a total past 64 bits can wrap to an accepted value
  (`Durations.OverflowCanPass`, `Durations.UnsignedExactIff`); behind a minus it does
  whenever every number fits (`Durations.NegativeOverflowPasses`,
  `Durations.SignedExactIff`).
* **A second Close** of the scrape scheduler crashes: `Scheduler.SecondCloseCrashes`,
  `Scheduler.CrashesIff`.
* **Matching permissions** does not compose in one shape: `Permissions.MatchesTransitiveIff`,
  `Permissions.EscalationWithoutThem`.
* **Schema validation** compares neighbours of a case-sensitive order only, so two names
  that fold together may both stay: `Schemas.FoldedRepeatMissed`; exactly which are found:
  `Schemas.NeighboursIff`, `Schemas.AcceptedIff`.
* **Stickers** whose keys hold an equals sign are read back differently:
  `Stickers.EqualsInKeyMoves`, `Stickers.ScanUndoesValueIff`.

## Model

| member | source | states |
|---|---|---|
| Ids.DecodeEncode | backend/kit/platform/id.go:71-110 | decoding the sixteen bytes of every valid id gives the id back |
| Ids.DecodeAnswers | backend/kit/platform/id.go:71-85 | decoding refuses another length with one error, and a byte that is no hexadecimal digit or the zero id with the other |
| Ids.EncOrder | backend/kit/platform/id.go:99-110 | comparing encoded ids as bytes compares the ids, so a bucket keyed by id is scanned in id order |
| Ids.EncPairInjective | backend/dashboards/service.go:585-606 | a key made of two ids determines both |
| Ids.EncPairParts | backend/dashboards/service.go:245-259 | splitting a two-id key in the middle and decoding both halves gives the two ids |
| BoltCursor.ForwardCursor | backend/bolt/kv.go:368-397 | a forward cursor is refused exactly when its seek lacks the prefix; ascending it will yield the keys of the whole bucket that are at or after the seek and have the prefix, without the first if asked, cut at the limit; descending without seek and prefix it yields the reverse of the bucket |
| BoltCursor.LimitAndSkip | backend/bolt/kv.go:391-397 | a limit leaves that many keys from the front, a skip drops the first |
| BoltCursor.Cursor.Next | backend/bolt/kv.go:464-491 | hands out the next of the remaining keys, or nothing now and for ever after; the remaining keys lose exactly that one |
| BoltCursor.Cursor.First | backend/bolt/kv.go:440-449 | returns the first key and leaves all the others remaining |
| BoltCursor.Cursor.Close | backend/bolt/kv.go:421-425 | a closed cursor yields nothing |
| BoltCursor.WalkCursor | backend/kv/store.go:244-264 | visits what remains, in order, up to and including the first key whose visit says stop, fails or finds the context cancelled, returns that outcome and closes the cursor |
| BoltCursor.PrefixEnumeration | backend/kv/store.go:213-223 | a cursor sought at its own prefix enumerates, in order, all keys of the bucket that have the prefix and no others |
| BoltCursor.MissingFinalAfterSeek | backend/bolt/kv.go:523-525 | ascending, once a key lacks the prefix every later key does, so stopping there loses nothing |
| KvIndex.KeyPartsOfIndexKey | backend/kv/index.go:140-163 | splitting an index key at its first slash recovers the foreign and the primary key |
| KvIndex.Insert | backend/kv/index.go:166-178 | fails exactly on keys with a slash; otherwise the index lists what it listed and the new pair |
| KvIndex.Delete | backend/kv/index.go:181-193 | fails exactly on keys with a slash; otherwise the index lists what it listed without that pair |
| KvIndex.WalkedPrimaries | backend/kv/index.go:226-243 | the prefix range cut down to the exact foreign key holds, in order, the primary keys listed under it, also when other foreign keys start with the same bytes |
| KvIndex.Walk | backend/kv/index.go:197-261 | visits in ascending order exactly the primary keys the index lists under the foreign key that exist in the source bucket |
| Dbrp.ComposeInjective | backend/dbrp/service.go:61-67 | the composite key of organization and database determines both |
| Dbrp.BucketToMapping | backend/dbrp/service.go:398-414 | the virtual mapping of a bucket has its id, a database without slash, and is default exactly when the bucket name has no slash |
| Dbrp.ParseDbrp | backend/dbrp/service.go:249-255 | a name without slash is the database with policy autogen; otherwise database, slash and policy spell the name and the database has no slash |
| Dbrp.ExactlyOneDefault | backend/dbrp/service.go:3-25 | under the invariant every organization and database with a mapping shows exactly one default |
| Dbrp.CreateKeepsInvariantIff | backend/dbrp/service.go:419-487 | whatever was checked before, the write of a Create keeps triples unique, both indexes exact and defaults exact if and only if no other mapping has the triple and its id is new or stands for a mapping of the same organization and database |
| Dbrp.UpdateKeepsInvariantIff | backend/dbrp/service.go:492-545 | whatever mapping was read before, the write of an Update keeps the invariant if and only if no other mapping has the triple and the id is stored for the organization and database it was found under |
| Dbrp.DeleteKeepsInvariantIff | backend/dbrp/service.go:550-597 | whatever mapping was read before, the write of a Delete keeps the invariant if and only if a mapping stored under the id is of the named organization, has the database read, and is the default only if it was read as one |
| Dbrp.CreateMayBreak | backend/dbrp/service.go:431-438 | an accepted Create that reuses an id of another organization breaks the invariant |
| Dbrp.UpdateMayBreak | backend/dbrp/service.go:496-507 | an accepted Update of a virtual mapping breaks the invariant |
| Dbrp.DeleteMayBreak | backend/dbrp/service.go:551-579 | an accepted Delete of an id stored for another organization breaks the invariant |
| Dbrp.RacingCreatesKeepInvariantIff | backend/dbrp/service.go:431-448 | two Creates with new ids that pass their checks on one store, whatever the bucket service answered, and then both write keep the invariant if and only if their triples differ |
| Dbrp.RacingCreatesMayBreak | backend/dbrp/service.go:431-448 | two accepted Creates of one triple on the empty store |
| Dbrp.ProperCallKeepsInvariant | backend/dbrp/service.go:13-25 | calls with fresh ids, stored targets and matching organizations keep the invariant, whether they succeed or fail |
| Dbrp.EveryRunKeepsInvariant | backend/dbrp/service.go:3-11 | in every store of every serialised run from the empty store: triples unique, both indexes hold exactly the stored ids under their keys, a database has a default entry exactly when it has a mapping and it names one |
| DbrpEffects.CreateThenFind | backend/dbrp/service.go:464-484 | a created mapping is found as given, as the default if asked for or first of its database |
| DbrpEffects.CreateLeavesOthers | backend/dbrp/service.go:464-484 | other mappings stay unchanged and lose their default flag only to a new default of the same database |
| DbrpEffects.UpdateThenFind | backend/dbrp/service.go:500-544 | an updated mapping keeps id, organization, bucket and database; giving up the default passes it to the first other mapping and is in vain without one; other mappings stay |
| DbrpEffects.DeleteThenFind | backend/dbrp/service.go:565-596 | the mapping is gone, the others stay, a deleted default passes to the first other mapping or disappears with the last |
| DbrpEffects.CreateAnswers | backend/dbrp/service.go:419-448 | the answer of Create in every case: bad names or zero ids, unknown bucket, an own mapping of that id or another's organization, database and policy, the zero id; a refusal changes nothing |
| DbrpEffects.UpdateAnswers | backend/dbrp/service.go:492-520 | the answer of Update in every case; already existing if and only if another stored mapping has the found organization and database and the requested policy; a refusal changes nothing |
| DbrpEffects.UpdateStores | backend/dbrp/service.go:500-520 | an accepted Update stores the requested policy and flags with the id, organization, bucket and database of the mapping found, stored or virtual |
| DbrpEffects.UpdateThenFindFields | backend/dbrp/service.go:500-544 | after an accepted Update of a stored mapping readers find the requested policy and the old id, organization, bucket and database |
| DbrpEffects.DeleteAnswers | backend/dbrp/service.go:550-564 | deleting what is not there succeeds and changes nothing; the zero organization is refused |
| DbrpEffects.LookupAnswers | backend/dbrp/service.go:205-246 | the stored mapping of the organization with the flag of the default bucket, else the bucket's, else the error for a bad id or a missing mapping |
| DbrpService.Service.IsUnique | backend/dbrp/service.go:181-202 | the index walk answers whether no other stored mapping has the same organization, database and policy |
| DbrpService.Service.GetFirstBut | backend/dbrp/service.go:167-178 | the index walk finds the least id of the other mappings of the database, or none exactly when there is none |
| DbrpService.Service.Create | backend/dbrp/service.go:419-487 | new buckets and error are those of the create step, failures changing nothing; a call with a fresh id keeps the invariant |
| DbrpService.Service.Update | backend/dbrp/service.go:492-545 | new buckets and error are those of the update step; a call for a stored mapping of the named organization keeps the invariant |
| DbrpService.Service.Delete | backend/dbrp/service.go:550-597 | new buckets and error are those of the delete step; a call that names no other organization's id keeps the invariant |
| DbrpService.Service.GetDefault | backend/dbrp/service.go:260-276 | the memo always repeats the default bucket, and so does the answer |
| DbrpService.Service.Visit | backend/dbrp/service.go:279-297 | over every store whose keys and default entries are encoded ids: panics if and only if a visited mapping's database has no default entry, and otherwise lists the candidates the filter accepts with the default flag overlaid |
| DbrpService.Service.FindPhysical | backend/dbrp/service.go:299-357 | for every filter the default-bucket path, the two index paths and the scan return the same list under the invariant: the stored mappings a full scan would accept, in id order; without it the scan lists or panics as its visits do |
| DbrpService.Service.FindMany | backend/dbrp/service.go:259-394 | under the invariant the stored mappings a full scan accepts, followed by the merged virtual ones unless the bucket service failed; for a filter without organization it panics if and only if a stored mapping's database has no default entry |
| DbrpService.UpdateLeavesDefaultlessIff | backend/dbrp/service.go:514-544 | after the write of an Update on a store of the invariant some mapping has no default entry if and only if its database had none and the Update asked for none |
| DbrpService.UpdateThenPanics | backend/dbrp/service.go:279-297 | an accepted Update of a bucket's mapping on the empty store, after which a scan panics for every filter |
| DbrpService.ReconcileLoop | backend/dbrp/service.go:374-387 | the inner loop computes what Reconcile says of a virtual mapping against the list so far |
| DbrpListing.AnyCoveringPathAgrees | backend/dbrp/service.go:299-354 | any ordered candidates that miss no accepted mapping list exactly what the full scan lists |
| DbrpListing.DefaultPathCovers | backend/dbrp/service.go:312-331 | the default entry is the only candidate for a default of one database |
| DbrpListing.OrgDatabasePathCovers | backend/dbrp/service.go:307-337 | the organization-database index misses no accepted mapping |
| DbrpListing.OrgPathCovers | backend/dbrp/service.go:332-337 | the organization index misses no accepted mapping, also for an organization id that has no encoding |
| DbrpListing.ReconcileKeeps | backend/dbrp/service.go:374-387 | a listed virtual mapping differs from its bucket's at most in the default flag, which it keeps exactly when no listed mapping of that database is a default |
| DbrpListing.MergedListHasOneDefault | backend/dbrp/service.go:359-393 | for every filter the merged list has at most one default for each organization and database |
| DbrpListing.OneOrganizationOneDefault | backend/dbrp/service.go:359-393 | for a filter naming an organization the merged list has at most one default per database |
| DbrpListing.PhysicalInIdOrder | backend/dbrp/service.go:340-353 | stored mappings are listed in the order of their ids |
| DbrpListing.ListedIff | backend/dbrp/service.go:601-610 | a stored mapping is listed if and only if it agrees with every one of the seven fields the filter names |
| DbrpListing.FieldsIntersect | backend/dbrp/service.go:601-610 | a filter naming several fields lists exactly what each field alone lists |
| DbrpListing.ShadowedIff | backend/dbrp/service.go:377-387 | a virtual mapping is dropped exactly when a listed one has its database and policy with no default of that database before it |
| DbrpMerge.DuplicateListed | backend/dbrp/service.go:377-387 | a store made by two accepted Creates whose listing shows a stored and a virtual mapping with the same triple |
| DbrpMerge.MergeIsChosen | backend/dbrp/service.go:369-391 | for every filter the merged list is the stored mappings followed, in order, by the buckets chosen by a condition on stored mappings and earlier buckets alone |
| DbrpMerge.KeptIff | backend/dbrp/service.go:374-387 | the inner loop keeps a bucket if and only if it is plainly named behind a default or its name is new, and takes its default exactly in the first case |
| DbrpMerge.VirtualListedIff | backend/dbrp/service.go:388-391 | a bucket's mapping is listed if and only if it agrees with every field the filter names and stands behind a default or under a free name |
| DbrpMerge.RepeatListedIff | backend/dbrp/service.go:369-391 | for every filter, stored list and buckets, the merged list shows a bucket beside an earlier mapping of the same database and policy if and only if a wanted bucket has a plain name, a stored default of that database is listed before any stored autogen mapping, and a stored mapping or an earlier wanted bucket has its name |
| DbrpMerge.PlainKeptIff | backend/dbrp/service.go:377-387 | the mapping of a plainly named bucket stays if and only if no autogen mapping of its database is listed or a default stands before all of them |
| DbrpMerge.TripleListedIff | backend/dbrp/service.go:369-391 | for every filter, stored list and buckets, an organization, database and policy is listed if and only if it is stored or that of a wanted bucket that stands behind a stored default or whose name no stored mapping and no earlier wanted bucket has |
| DbrpMerge.ListedAsDefaultIff | backend/dbrp/service.go:374-391 | a bucket is listed as a default if and only if the filter accepts it so, its name is plain, no stored mapping of any organization is a default of its database and its name is not taken |
| DbrpMerge.DefaultShownIff | backend/dbrp/service.go:369-391 | an organization shows a default of a database if and only if it has a listed stored one, or no organization has and its plainly named bucket comes first under that name |
| DbrpMerge.BucketIsRepresented | backend/dbrp/service.go:357-391 | every bucket the filter wants is listed under its database and policy, and under its own organization if the filter names one |
| DbrpMerge.OtherOrganizationHides | backend/dbrp/service.go:378-381 | a stored mapping of one organization hides the bucket of another |
| DbrpMerge.OtherOrganizationTakesDefault | backend/dbrp/service.go:382-385 | a stored default of one organization takes the only default of another |
| Dashboards.CreateKeepsInvariantIff | backend/dashboards/service.go:324-359 | a successful Create keeps the index exact and every cell's view if and only if its id is new or belongs to a dashboard of the same organization |
| Dashboards.ReplaceKeepsInv | backend/dashboards/service.go:372-413 | replacing cells, also by repeated ones, keeps the invariant and touches no view |
| Dashboards.AddCellKeepsInv | backend/dashboards/service.go:415-432 | adding a cell keeps the invariant and leaves other dashboards' views alone |
| Dashboards.RemoveCellKeepsInvariantIff | backend/dashboards/service.go:448-492 | removing a cell keeps a view under every cell if and only if its id occurs once in the dashboard |
| Dashboards.RemoveCellFrame | backend/dashboards/service.go:544-560 | removing a cell leaves other dashboards' views alone |
| Dashboards.UpdateCellKeepsInv | backend/dashboards/service.go:640-688 | updating a cell keeps the invariant and touches no view |
| Dashboards.UpdateViewKeepsInv | backend/dashboards/service.go:609-637 | updating a view keeps the invariant and leaves other dashboards' views alone |
| Dashboards.UpdateKeepsInv | backend/dashboards/service.go:846-889 | updating a dashboard with or without new cells keeps the invariant and leaves other dashboards' views alone |
| Dashboards.DeleteKeepsInv | backend/dashboards/service.go:903-946 | deleting a dashboard keeps the invariant and leaves other dashboards' views alone |
| DashboardRuns.ProperCallKeepsInvariant | backend/dashboards/service.go:324-492 | every call with fresh ids and differing cell ids keeps the index exact and a view under every cell |
| DashboardRuns.OtherDashboardsKeepTheirViews | backend/dashboards/service.go:585-606 | no call, with fresh ids and differing cells or not, changes the views of a dashboard it does not name |
| DashboardRuns.EveryRunKeepsInvariant | backend/dashboards/service.go:324-946 | in every store of every run the index is exact, every cell has a view and cell ids differ |
| DashboardRuns.DuplicateCellLosesItsView | backend/dashboards/service.go:384-400 | a cell handed in twice and removed once is left without its view |
| DashboardRuns.CreateThenRead | backend/dashboards/service.go:324-369 | a created dashboard is read back with numbered cells, whose own view copies have lost id and properties; each stored view is the one given or a blank one, with the cell's id |
| DashboardRuns.CreateReadsBackIff | backend/dashboard.go:135-190 | a created dashboard is read back with the cells as numbered if and only if no cell brings a view |
| DashboardRuns.ViewCopyIsReduced | backend/dashboard.go:135-190 | a dashboard with one view, read back with the copy reduced to its name and the stored view whole |
| DashboardRuns.UpdateThenRead | backend/dashboards/service.go:846-889 | after an update with cells the dashboard has them, with reduced view copies, and each stored view is the one given, or the zero view |
| DashboardRuns.UpdateDropsOldViews | backend/dashboards/service.go:861-866 | the views of cells an update does not name again are gone |
| DashboardRuns.DeleteThenRead | backend/dashboards/service.go:903-946 | after a delete the dashboard, its index key and its cells' views are gone and other dashboards stay |
| DashboardEffects.AddCellThenRead | backend/dashboards/service.go:415-432 | the answer in every case; on success the cell stands last with its position, size and new id, its view is the given or a blank one with that id, and everything else is as before |
| DashboardEffects.ReplaceThenRead | backend/dashboards/service.go:372-413 | the first cell without id or not there before decides the error; on success the cells are the given ones in order and no view and no other dashboard changes |
| DashboardEffects.RemoveCellThenRead | backend/dashboards/service.go:448-492 | the answer in every case; on success the first cell with the id and its view are gone and everything else is as before |
| DashboardEffects.UpdateCellThenRead | backend/dashboards/service.go:640-688 | the answer in every case; on success each of position and size is the given one or stays, of that cell only |
| DashboardEffects.UpdateViewThenRead | backend/dashboards/service.go:609-637 | the answer in every case; on success name and properties are the given ones or stay, of that view only |
| DashboardEffects.RenameThenRead | backend/dashboards/service.go:846-889 | an update without cells sets name and description where given and nothing else |
| DashboardEffects.CreateAnswers | backend/dashboards/service.go:324-359 | creating is refused exactly for a zero id of dashboard, organization or cell, and then changes nothing |
| DashboardEffects.UpdateAnswers | backend/dashboards/service.go:821-889 | the answer of an update with or without cells in every case; a refusal changes nothing |
| DashboardEffects.DeleteAnswers | backend/dashboards/service.go:903-946 | the answer of a delete in every case; a refusal changes nothing |
| DashboardService.OrgRunIsOrganization | backend/dashboards/service.go:213-230 | the prefix range of the organization index holds, in dashboard order, exactly the dashboards of the organization |
| DashboardService.Service.FindOrganizationDashboards | backend/dashboards/service.go:207-243 | listing through the index returns exactly what a scan restricted to the organization returns, in the same order, and fails only for an id without encoding |
| DashboardService.Service.FindAllDashboards | backend/dashboards/service.go:301-320 | the scan returns the requested page of the accepted dashboards in either direction |
| DashboardService.OrganizationListingMatchesScan | backend/dashboards/service.go:261-321 | with an organization and no ids in the filter, index listing and scan return the same sequence |
| DashboardService.OrganizationFilterIsScan | backend/dashboards/service.go:154-170 | with the organization in the filter and no ids, restricting a scan to the organization changes nothing |
| DashboardService.ScannedIff | backend/dashboards/service.go:154-172 | a dashboard is listed if and only if its id is among those asked for or, without ids, it has the organization and the owner asked for |
| DashboardService.PageHolds | backend/dashboards/service.go:301-320 | a page holds the dashboards from the offset on, in order, as many as the limit allows |
| DashboardService.CollectPage | backend/dashboards/service.go:303-314 | counting, offset and early stop give exactly the page |
| DashboardService.Service.CreateDashboard | backend/dashboards/service.go:324-359 | a call with fresh ids and differing cells keeps the index exact, a view under every cell and cell ids different, and no call touches another dashboard's views; buckets and error are those of the create step |
| DashboardService.Service.ReplaceDashboardCells | backend/dashboards/service.go:372-413 | a call with fresh ids and differing cells keeps the index exact, a view under every cell and cell ids different, and no call touches another dashboard's views; buckets and error are those of the replace step, the first bad cell deciding the error |
| DashboardService.Service.AddDashboardCell | backend/dashboards/service.go:415-432 | a call with fresh ids and differing cells keeps the index exact, a view under every cell and cell ids different, and no call touches another dashboard's views; buckets and error are those of the add step |
| DashboardService.Service.RemoveDashboardCell | backend/dashboards/service.go:448-492 | every call keeps the index exact, a view under every cell and cell ids different, and no call touches another dashboard's views; buckets and error are those of the remove step |
| DashboardService.Service.UpdateDashboardCell | backend/dashboards/service.go:640-688 | every call keeps the index exact, a view under every cell and cell ids different, and no call touches another dashboard's views; buckets and error are those of the cell update step |
| DashboardService.Service.UpdateDashboardCellView | backend/dashboards/service.go:609-637 | every call keeps the index exact, a view under every cell and cell ids different, and no call touches another dashboard's views; buckets and error are those of the view update step |
| DashboardService.Service.UpdateDashboard | backend/dashboards/service.go:846-889 | a call with fresh ids and differing cells keeps the index exact, a view under every cell and cell ids different, and no call touches another dashboard's views; buckets and error are those of the update step |
| DashboardService.Service.DeleteDashboard | backend/dashboards/service.go:903-946 | every call keeps the index exact, a view under every cell and cell ids different, and no call touches another dashboard's views; buckets and error are those of the delete step |
| Authorizations.TokensUnique | backend/authorization/storage_authorization.go:302-333 | two records with the same token are one |
| Authorizations.CreateKeepsBijection | backend/authorization/storage_authorization.go:55-110 | a create keeps token index and id bucket a bijection, whatever ids are drawn |
| Authorizations.CreateStoresUnlessIdsRunOut | backend/authorization/storage_authorization.go:59-76 | failure changes nothing; success stores both entries, except if and only if the given id is zero or taken and every draw is below 1000 or taken, when it stores neither |
| Authorizations.SuccessMayStoreNothing | backend/authorization/storage.go:60-82 | a hundred reserved draws on the empty store: success, and the store is still empty |
| Authorizations.CallKeeps | backend/authorization/service.go:30-212 | every call keeps the bijection and the result of every lookup by a token it is not about |
| Authorizations.UpdateKeepsBijection | backend/authorization/storage_authorization.go:230-264 | an update keeps the bijection and changes neither the index nor the set of ids |
| Authorizations.StaleUpdateKeepsBijectionIff | backend/authorization/service.go:176-212 | whatever happened since the read, the write of an update keeps the bijection if and only if neither the token nor the id stands for another record |
| Authorizations.StaleUpdateMayBreak | backend/authorization/service.go:176-212 | a record deleted and its token reused between read and write |
| Authorizations.DeleteKeepsBijection | backend/authorization/storage_authorization.go:267-300 | a delete keeps the bijection and the token is no longer found |
| Authorizations.EveryRunKeepsBijection | backend/authorization/service.go:30-72 | in every store of every serialised run a token is indexed to an id exactly when the record under that id has that token and id |
| Authorizations.CreateThenFind | backend/authorization/storage_authorization.go:96-107 | a stored record is found by token and by id, with an unset status made active, and no other token's lookup changes |
| Authorizations.UpdateThenFind | backend/authorization/service.go:176-212 | an update changes status and description of one record as asked and nothing else |
| Authorizations.CreateAnswers | backend/authorization/service.go:30-72 | the answer of creating a token in every case, from foreign permissions and missing user or organization to exhausted ids; a refusal changes nothing |
| Authorizations.ChangeAnswers | backend/authorization/storage_authorization.go:230-300 | the answers of update and delete in every case; a refusal changes nothing and a delete removes exactly both entries |
| Authorizations.ScannedIff | backend/authorization/storage_authorization.go:413-440 | a record is listed if and only if it has the id asked for, else the token, else the organization and user |
| AuthorizationRaces.ReadThenWriteIsUpdate | backend/authorization/service.go:176-212 | the two transactions of an update with nothing in between are the update step |
| AuthorizationRaces.EveryInterleavingKeepsBijection | backend/authorization/service.go:30-217 | if created tokens and ids are never used twice, index and bucket are a bijection at every moment of every interleaving of creates, deletes, and the reads and writes of updates |
| AuthorizationRaces.GoneIsPermanent | backend/authorization/service.go:176-217 | over every such run a record that is not stored and that no pending update would write stays away |
| AuthorizationRaces.MayReturnIff | backend/authorization/service.go:176-217 | a deleted record can be stored again if and only if an update that read it has still to write it |
| AuthorizationRaces.DeletedRecordReturns | backend/authorization/service.go:176-217 | every storable record can be created, read, deleted and stored again |
| Authorizations.HintNeverHidesIff | backend/authorization/storage_authorization.go:361-412 | the cursor predicate hides no storable record the filter accepts if and only if the token is spelled the same in JSON and the user is not the zero id |
| Authorizations.HintMayHide | backend/authorization/storage_authorization.go:390-412 | a record without a user is accepted by the filter and refused by the hint |
| Authorizations.HintRefusesUnwanted | backend/authorization/storage_authorization.go:361-410 | what a safe hint lets through the filter accepts |
| Authorizations.LookupByTokenIsScan | backend/authorization/storage_authorization.go:144-171 | lookup by token finds a record exactly when a scan for the token does, and it is that one |
| Authorizations.LookupByIdIsScan | backend/authorization/storage_authorization.go:113-142 | lookup by id finds a record exactly when a scan for the id does, and it is that one |
| Authorizations.SafeId | backend/authorization/storage.go:60-82 | the id found was drawn, is not reserved and is free; none is found exactly when no draw is |
| Authorizations.SafeIdIsFirst | backend/authorization/storage.go:60-82 | the id found is the first usable one drawn |
| Authorizations.ReservedBound | backend/authorization/storage.go:60-82 | id 999 is passed over and id 1000 taken |
| AuthorizationService.Service.GenerateSafeId | backend/authorization/storage.go:60-82 | the loop of at most a hundred draws finds the first usable one |
| AuthorizationService.Service.StoreCreate | backend/authorization/storage_authorization.go:55-110 | keeps the bijection and all other tokens' lookups; buckets and error are those of the create step, the id search included |
| AuthorizationService.Service.CreateAuthorization | backend/authorization/service.go:30-72 | every call keeps the bijection and changes no lookup but that of the given or generated token; buckets and error are those of the service's create step |
| AuthorizationService.Service.UpdateAuthorization | backend/authorization/service.go:176-212 | every call keeps the bijection and changes no lookup but that of the named record's token; buckets and error are those of the update step |
| AuthorizationService.Service.DeleteAuthorization | backend/authorization/storage_authorization.go:267-300 | every call keeps the bijection and changes no lookup but that of the named record's token; buckets and error are those of the delete step |
| AuthorizationService.HiddenAreUnwanted | backend/authorization/storage_authorization.go:175-193 | under a safe hint, leaving out any records it refuses does not change the filtered scan |
| AuthorizationService.Service.ListAuthorizations | backend/authorization/storage_authorization.go:175-227 | under a safe hint the list is that of a full scan, however much of the hint the store honours |
| AuthorizationService.Service.FindAuthorizations | backend/authorization/service.go:117-173 | by id, by token or listed, the result is that of a full scan; only lookups that match nothing fail |
| Permissions.PermissionAllowed | backend/authz.go:37-44 | true exactly when some permission of the set matches |
| Permissions.AllowedIff | backend/authz.go:232-277 | a set allows a request if and only if an entry has its action and is of the instance kind or of its kind and global, wide in its organization, or naming its id |
| Permissions.NothingUnnamedAllowed | backend/authz.go:233-243 | no request is allowed of an action no entry has nor, without instance entries, of a kind no entry names |
| Permissions.MayCreateIff | backend/authorizer/auth.go:69-80 | a token may be created if and only if its maker may write the authorizations of its organization and its user and holds every permission handed on |
| Permissions.VerifyPermissions | backend/authorizer/auth.go:113-124 | true exactly when the list is empty or every entry is allowed by an existing permission set |
| Permissions.MatchesTransitiveIff | backend/authz.go:232-277 | matching composes except exactly where an organization-wide permission covers a named resource that is then asked for outside that organization |
| Permissions.VerifiedSetDoesNotEscalate | backend/authorizer/auth.go:113-124 | if ids and organizations belong together, a verified set allows no request beyond a bare id that its holder's set does not allow |
| Permissions.BareIdEscalatesOnlyThroughAnOrganization | backend/authz.go:256-274 | a bare-id request gained this way comes from an organization-wide permission covering the granted one |
| Permissions.EscalationWithoutThem | backend/authz.go:249-274 | inputs showing that both hypotheses are needed |
| Permissions.CreatedTokenDoesNotEscalate | backend/authorizer/auth.go:69-80 | a token created through the authorizer answers no named, wide or global request its maker would be refused |
| Checks.StepKeepsInv | backend/checks/service.go:276-563 | every step of every interleaving, done, refused or done with its answer lost, keeps calls, pairs, tasks and names in agreement |
| Checks.RunSafety | backend/checks/service.go:276-363 | at every moment of every run an active task is named by a stored check, no two checks share a task and no two checks of an organization share a name |
| Checks.TaskNeverChanges | backend/checks/service.go:475-523 | over a whole run a check keeps its task, and a deleted check never returns |
| Checks.PerformKeepsTasks | backend/checks/service.go:548-563 | a check goes only after its task, so a task that still exists has its check and only such tasks are switched on |
| Checks.RenameKeepsNames | backend/kv/store_index.go:119-233 | putting a check under a free name keeps name index and check bucket a bijection |
| Checks.CreateAlone | backend/checks/service.go:276-339 | an undisturbed create stores the check and leaves its task in the requested state |
| Checks.CompensationRestores | backend/checks/service.go:316-329 | a refused create whose clean-up succeeds leaves both stores as they were |
| Checks.CreateUnderTakenName | backend/checks/service.go:311-329 | an undisturbed create under a taken name leaves checks, names and tasks as they were |
| Checks.UpdateAlone | backend/checks/service.go:414-523 | an undisturbed update puts the check under the new name with its old task, frees the old name and sets the task's state, or changes nothing if the check is missing or the name another's |
| Checks.PatchAlone | backend/checks/service.go:384-412 | an undisturbed patch does the same for the parts it names |
| Checks.ErrorEndsCall | backend/checks/service.go:314-339 | a call that sees an error ends, a create after removing its task; a refused write changes nothing |
| Checks.OthersUntouched | backend/checks/service.go:276-563 | whatever the outcome, no stage of a call touches another check or another task |
| Checks.DeleteAlone | backend/checks/service.go:548-563 | an undisturbed delete removes the check, its name and its task if the task still exists, and if not leaves everything as it was |
| Checks.RemovableIff | backend/checks/service.go:548-563 | in every state of the invariant some interleaving of calls still removes a stored check if and only if its task exists or a delete is about to remove the check |
| Checks.StrandedIsPermanent | backend/checks/service.go:548-563 | over every run, a stored check whose task is gone and that no delete is about to remove stays so for ever |
| Checks.RefusedDeleteStrands | backend/checks/service.go:554-562 | from every state, a delete whose last write is refused strands the check |
| Checks.LostAnswerStrands | backend/checks/service.go:299-329 | from every state, a create whose check was stored but whose answer was lost strands the check |
| Checks.StrandedIsReachable | backend/checks/service.go:276-339 | a run from the empty stores after which every call has returned and a check is stranded |
| Scheduler.StepKeepsInv | backend/gather/scheduler.go:49-136 | every channel, WaitGroup and goroutine step keeps scrapers, requests and counts accounted for |
| Scheduler.EveryRunKeepsInv | backend/gather/scheduler.go:28-136 | the same in every state of every run, for every queue length and number of scrapers including zero |
| Scheduler.ScraperCount | backend/gather/scheduler.go:50-68 | pooled, held and working scrapers always number N, so at most N scrapes run |
| Scheduler.ReleaseNeverBlocks | backend/gather/scheduler.go:63-65 | giving a scraper back always finds room in the pool |
| Scheduler.ExactlyOnePlace | backend/gather/scheduler.go:54-73 | every accepted request is queued, held, being scraped, finished or dropped, exactly one of these |
| Scheduler.StepKeepsRequests | backend/gather/scheduler.go:58-70 | accepted requests are, in order of acceptance, those started, the one held or dropped, and those queued |
| Scheduler.TickDelivers | backend/gather/scheduler.go:118-131 | with room in the queue a round over n targets can queue exactly n new requests, in order |
| Scheduler.RoundOffersAll | backend/gather/scheduler.go:118-131 | in every run a finished round over n targets offered exactly n, and accepted all it did not skip |
| Scheduler.SkippedOnlyWhenFull | backend/gather/scheduler.go:125-129 | a target is skipped only when the queue is full |
| Scheduler.OffersPossible | backend/gather/scheduler.go:125-129 | a ready consumer takes a target past an empty queue, also without room in it; with the queue full a target is skipped |
| Scheduler.QueuedCanStart | backend/gather/scheduler.go:57-66 | the oldest queued request can be started on the first pooled scraper |
| Scheduler.ScrapeCanEnd | backend/gather/scheduler.go:93-116 | a scrape under way can end with its scraper back in the pool and its request finished |
| Scheduler.CountNeverRaisedFromZero | backend/gather/scheduler.go:93-97 | no step raises the WaitGroup from zero |
| Scheduler.ClosedMeansQuiet | backend/gather/scheduler.go:133-136 | when Close has returned both loops are gone, nothing is scraping, all started scrapes finished and all scrapers are pooled |
| Scheduler.ClosedIsFinal | backend/gather/scheduler.go:133-136 | after Close has returned nothing can happen but a second Close |
| Scheduler.CrashesIff | backend/gather/scheduler.go:133-136 | over every run the process has crashed if and only if Close was called again, and then nothing follows |
| Scheduler.SecondCloseCrashes | backend/gather/scheduler.go:133-136 | for every queue length and number of scrapers, two calls of Close right after the start crash |
| Scheduler.CloseCanReturn | backend/gather/scheduler.go:133-136 | from every state in which Close waits some run lets it return |
| Durations.SplitOfRender | backend/http/duration.go:44-118 | every list of digits-unit groups is read back from its text, so no text of the grammar is refused or read two ways |
| Durations.AcceptedOnlyInGrammar | backend/http/duration.go:44-129 | whatever is accepted is an optional minus and one or more digits-unit groups, with the value of those groups |
| Durations.GrammarParses | backend/http/duration.go:21-129 | every signed list of groups is read with exactly the wrapped value, the refusals and the overflow check of the source |
| Durations.ExactWhenItFits | backend/http/duration.go:120-128 | the exact signed sum is returned whenever the unsigned total fits 64 bits |
| Durations.UnsignedExactIff | backend/http/duration.go:120-123 | without a minus the exact total is returned if and only if it fits |
| Durations.NegativeNeverOverflows | backend/http/duration.go:120-128 | behind a minus a text is accepted if and only if every number fits, with the negated sum wrapped to 64 bits |
| Durations.SignedExactIff | backend/http/duration.go:120-128 | behind a minus the exact value is returned if and only if every number fits and the total is at most 2^63 |
| Durations.NegativeOverflowPasses | backend/http/duration.go:120-128 | a negative text whose total exceeds 64 bits and is accepted as -5 |
| Durations.OverflowCanPass | backend/http/duration.go:120-123 | a text whose total exceeds 64 bits and is accepted with a small value |
| Durations.ConcatenationAdds | backend/http/duration.go:44-118 | the concatenation of two unsigned texts parses to the sum of their values, under the same bound |
| Durations.RoundTripIff | backend/http/duration.go:132-155 | parsing what is printed gives the duration back if and only if it is not the least one |
| Durations.UnitText | backend/http/duration.go:46-117 | the text of one of each of the fourteen units and its worth in nanoseconds |
| Durations.PrintedInLargestUnit | backend/http/duration.go:132-155 | a duration is printed in the largest unit that divides it, nothing as 0s |
| Durations.UnsignedAnswers | backend/http/duration.go:120-123 | without a minus a text of groups is invalid if and only if a number is too large, and an overflow if and only if the total wraps below zero |
| Durations.ReadGroup | backend/http/duration.go:46-117 | one turn of the loop reads exactly the first group and where it ends |
| Durations.ParseGroups | backend/http/duration.go:44-128 | the loop with its wrapping sum returns the meaning of the groups and the sign |
| Durations.ParseDuration | backend/http/duration.go:21-129 | the method returns what Parse says of every text |
| Schemas.NewColumns | backend/measurement_schema.go:341-352 | the index array is a permutation of the columns in order of name |
| Schemas.Sort | backend/measurement_schema.go:354-364 | sorting by Less and Swap alone yields a sorted permutation |
| Schemas.ValidateColumns | backend/measurement_schema.go:371-439 | exactly the errors of each column, then missing time, missing fields and a clash of names, from the columns alone and so whatever order the sort gives to equal names |
| Schemas.AcceptedIsGood | backend/measurement_schema.go:378-438 | without errors names differ pairwise, one column named time is the only timestamp and has no data type, fields have one, tags none, and a field exists |
| Schemas.GoodIsAccepted | backend/measurement_schema.go:378-438 | conversely such columns with names that differ even when folded have no errors |
| Schemas.NeighboursFindRepeats | backend/measurement_schema.go:430-436 | equal names become neighbours, so comparing neighbours finds every repeat |
| Schemas.NeighboursIff | backend/measurement_schema.go:430-436 | for every sorted permutation, two neighbours fold together if and only if two columns do with no name strictly between theirs |
| Schemas.AcceptedIff | backend/measurement_schema.go:371-439 | there are no errors if and only if the schema is good and no two names fold together with none strictly between them |
| Schemas.ColumnErrorsIff | backend/measurement_schema.go:298-323 | each of the six column errors is reported if and only if the column has that fault |
| Schemas.SchemaErrorsIff | backend/measurement_schema.go:371-439 | each of the four schema errors is reported if and only if the schema has that fault |
| Schemas.SchemaErrorsLast | backend/measurement_schema.go:421-438 | schema errors follow those of the columns: time, fields, names |
| Schemas.ErrorsOfOneMore | backend/measurement_schema.go:380-419 | the errors of the columns follow each other in the order of the columns |
| Schemas.FoldedRepeatMissed | backend/measurement_schema.go:430-436 | accepted columns of which two names fold together |
| UrlPaths.ShiftPath | backend/http/middleware.go:91-98 | the head is the first segment of the cleaned path and the tail has exactly the remaining ones |
| UrlPaths.Compare | backend/http/middleware.go:105-115 | terminates and matches exactly when the cleaned paths have equally many segments, each equal or a parameter in the pattern |
| UrlPaths.MapUrlPath | backend/http/middleware.go:86-125 | answers with an exact entry if there is one, else with the first matching pattern in the order of iteration, and with none if and only if no entry matches |
| UrlPaths.AnswerFixedIff | backend/http/middleware.go:86-125 | the entry found is the same for every order of iteration if and only if it is exact or no two patterns match |
| UrlPaths.SegmentsOfClean | backend/http/middleware.go:92-92 | cleaning a cleaned path changes no segment |
| UrlPaths.SegmentsAppend | backend/http/middleware.go:92-92 | cleaning step by step: nothing and a dot change nothing, a double dot takes the last segment back, anything else adds one |
| UrlPaths.CoversOneMore | backend/http/middleware.go:101-115 | with one segment more on both sides a pattern matches if and only if it did before and the segment is equal or starts with a colon |
| Stickers.StickerSliceToMap | backend/annotation.go:75-87 | fails if and only if an entry has no equals sign; otherwise a key has a value if and only if the last entry with that key gives it |
| Stickers.LaterEntriesWin | backend/annotation.go:75-87 | a key maps to a value if and only if its last entry, cut at the first equals sign, gives that value |
| Stickers.ToMapFailsIff | backend/annotation.go:75-87 | reading fails if and only if an entry has no equals sign |
| Stickers.Value | backend/annotation.go:190-195 | one entry key, equals sign, value for each key in the order of iteration |
| Stickers.ScanUndoesValueIff | backend/annotation.go:207-228 | for every iteration order reading back gives the map if and only if no key holds an equals sign |
| Stickers.ScanAnswers | backend/annotation.go:207-228 | an entry without equals sign leaves the stickers as they were, without an error; otherwise they are replaced |
| Stickers.EqualsInKeyMoves | backend/annotation.go:190-228 | a key a=b with value c is read back as key a with value b=c |

## Left out

- Concurrent calls of the DBRP service: whole runs are serialised; for interleaved calls the condition on the store found by each write is exact, but no run theorem is stated.
- Failures of the key-value store in those services (missing buckets, read-only transactions): a failed transaction is rolled back and changes nothing.
- Answers of the bucket, tenant and task services, id and token generators, clocks: parameters of the operations; timestamps and the operation log are not modelled.
- JSON: values are stored as themselves; the exceptions the code depends on (no JSON form for a zero id, an omitted zero user, escaped tokens, the reduced view of a cell) are modelled; stored views with nil properties, which read back as empty ones, keep them here.
- Unicode tables: printable names, schema tokens and case folding are parameters of the operations that use them.
- PutDashboard and PutCheck, which write caller-chosen ids without checks.
- Orphaned cell views: cells dropped by ReplaceDashboardCells keep their stored views, so only the presence of each cell's view is proved.
- The feature-flagged pagination of an organization's dashboards and SortDashboards: plain slicing and a library sort.
- Cursor.Prev, Cursor.Seek and Cursor.Last, and descending cursors with a seek or a prefix: no service here uses them.
- Dashboard listing with ids in the filter, where index listing and scan differ by design.
- Flux text, descriptions and names of tasks: only status and existence matter to the pairing.
- Calls to the task service that do not come from the check service.
- Scheduler liveness: which branch a select takes is free, so Close is shown able to return, not bound to.
- Schemas.Sort: an insertion sort stands for the library's sort; the theorems about validation hold for every sorted permutation.
- Listing methods drain their cursor before they visit its keys; as no write comes in between, the result is that of the interleaved loop.
- Durations.ParseDuration: text is a sequence of runes; the length check of the source counts bytes, which differs only for texts of one rune, refused either way.
- HTTP handlers, clients, routers, logging and metrics, annotation SQL, backup and restore, Prometheus parsing, telegraf configuration, view-property JSON and the frontend: plumbing, I/O or plain data.
