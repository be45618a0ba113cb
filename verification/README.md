# Nimbus: a verified model of the drive, its S3 gateway, the merge and the chunked bytes

Nimbus keeps a file tree in SQLite and its bytes in numbered Telegram messages. This
project models the parts of it that have to agree with each other for that to look like
a plain file store, and proves that they do.

* **Drive namespace** (`nodes`, `treeops`, `searchindex`, `store`, `services`,
  `driveruns`, `drivecalls`, `uploadstart`): the node table with its schema constraints,
  the store and service operations as methods of classes, the path search index that is
  kept in step by hand, trash and purge, and every run of these calls.
* **S3 gateway** (`gateway`, `gatewayproofs`, `gatewaysteps`, `gatewayrefinement`,
  `gatewayrace`, `gatewayput`, `gatewayends`): requests as interleaved steps under the
  namespace lock, refining a flat map from bucket and key to object wherever no object
  delete hits another key, and the run in which one does; what each request comes to when
  nothing runs in between.
* **Keys and listings** (`keys`, `utf8`, `walk`, `lookup`, `listing`, `listobjects`):
  lookups against walks, prefixes, delimiters, pages, byte order.
* **Database merge** (`importorder`, `merge`, `mergeproofs`, `mergeruns`, `mergecontents`,
  `mergetwice`, `mergedatabase`).
* **Chunked bytes** (`chunks`, `upload`, `uploadprogress`, `download`, `objectrange`,
  `roundtrip`, `awschunked`, `octettrim`, `multipart`): parallel upload with rollback, its
  progress, range reads by three ways, a GET of what was uploaded, the aws-chunked decoder,
  multipart assembly.
* **Captions** (`captions`): the SRT printer and parser.
* **Witnesses** (`witnesses`): the inputs at which the drive and the merge fall short.
* `wrappers`, `bytes`, `text` and `numerals` hold result types, octets, string helpers and
  the numerals of `strconv`.

`dafny verify dfyconfig.toml` checks everything.

How the model reads. A table is a map; the unique index, the foreign keys and the checks
of the schema are guards of the statements that would violate them. `Tree` is what every
run of the drive keeps: one root, folder parents, no parent cycle, distinct names among
live siblings, live folders under live folders. `Anchored` says that ready rows have live
parents; it holds in every gateway run, and in every drive run that does not trash a
folder with an unfinished upload in it. Generated identifiers, messages a remote call may
leave behind, and failures of remote calls are parameters or free choices. Concurrency is
a transition system whose steps are single database, disk or remote calls; the theorems
are about every sequence of steps. Times are whole milliseconds, MD5 is any function.

Where the code and its own comments part, the model follows the code: `MoveToTrash` is
described as deleting a node and its descendants, but it lists ready children only, so an
unfinished upload inside stays; `uniqueImportName` is meant to find a free name, but after
999 taken suffixes it returns a taken one, and the insert then fails the whole merge; the
part of a list prefix after its folder is computed and never used.

Five things the code does not do in general, each with its exact condition and an input
at which it fails:

* The search index stays exact, and ready rows keep live parents, through every call but
  one: a staged file that turns ready, or is published, under a folder that is no longer
  live. So both hold throughout a run exactly when no such call is in it
  (`DriveRuns.IndexedRuns`). It takes a trash over an unfinished upload to get there
  (`DriveRuns.EveryRunKeepsIndex`); `DriveRuns.StrandedUpload` is the run that goes wrong.
* A move reports success exactly when it was accepted and, for a folder that changes its
  parent, every ready row is anchored: otherwise the rebuild of the index fails after the
  row was moved (`Stores.Store.Move`, at the input `Witnesses.FailingMove`). The store
  opens under the same condition (`Stores.Store.Open`).
* A purge removes a trashed subtree exactly when no unfinished upload was inside it
  (`Services.TrashThenPurge`, `Witnesses.BlockedPurge`), and emptying the trash leaves no
  deleted row exactly when it had at most 500 roots (`Services.Drive.EmptyTrash`,
  `Witnesses.EmptyCrowdedTrash`).
* Merging a database a second time adds nothing exactly when each imported file has a
  content hash and no live file holds the name of an imported folder where that folder
  belongs (`MergeDatabases.MergeTwiceInARow`, `Witnesses.UnhashedFileAgain`,
  `Witnesses.BlockedFolderAgain`).
* An object delete erases its own key or nothing exactly unless the row it found is by
  then published under another name (`GatewayRefinement.StepRefines`). That happens only
  if the lookup met an upload before its publish, as `lookupObject` accepts any live row:
  `GatewayRaces.DeleteRemovesOtherKey` is the run in which a delete of the staging name
  erases the object just put.

## Model

| member | source | states |
|---|---|---|
| `Nodes.NoCycle` | internal/store/sqlite/store.go:500-561 | a row that reaches the root is never its own proper ancestor |
| `Nodes.SiblingsDisjoint` | internal/store/sqlite/store.go:55-79 | two siblings with a common descendant are the same row |
| `Nodes.UnderIsDown` | internal/store/sqlite/store.go:570-588 | where ready rows are anchored, stepping through ready children reaches every ready descendant |
| `Nodes.FolderUnderIsDown` | internal/store/sqlite/store.go:570-588 | the same for live folders, with no assumption about files |
| `TreeOps.InsertKeepsTree` | internal/store/sqlite/store.go:377-400 | an insert under a live folder, with the name free, keeps the tree and what is anchored |
| `TreeOps.RenameKeepsTree` | internal/store/sqlite/store.go:477-498 | a rename to a free name keeps the tree and what is anchored |
| `TreeOps.MoveKeepsTree` | internal/store/sqlite/store.go:500-561 | a move to a live folder outside the subtree keeps the tree: no cycle, all rows still reach the root |
| `TreeOps.PublishKeepsTree` | internal/store/sqlite/store.go:437-475 | a publish keeps the tree, and keeps ready rows anchored exactly when the folder is still live |
| `TreeOps.TrashKeepsTree` | internal/app/trash_share.go:15-35 | trashing what the lists of ready children reach keeps the tree and ready rows anchored |
| `TreeOps.TrashStrands` | internal/app/trash_share.go:15-35 | a trash leaves unfinished uploads anchored exactly when none is inside |
| `TreeOps.RemoveKeepsTree` | internal/store/sqlite/store.go:653-667 | removing deleted rows together with all their descendants keeps the tree |
| `SearchIndex.AnchoredPaths` | internal/store/sqlite/store.go:157-184 | in an anchored tree every ready row has a path |
| `SearchIndex.PathsIffAnchored` | internal/store/sqlite/store.go:125-184 | every ready row has a path exactly when every ready row has a live parent |
| `SearchIndex.RootPath` | internal/store/sqlite/store.go:157-184 | the path of the root is "My Drive" |
| `SearchIndex.PathStep` | internal/store/sqlite/store.go:157-184 | within the cap of 64 rows the path of a live row is its parent's path, " / ", its name, and missing exactly when the parent's is |
| `SearchIndex.ExactIffNests` | internal/store/sqlite/store.go:125-205 | with all rows within the cap, the index is exact exactly when each ready row has one entry, its name and its parent's path extended by it, and no other row has any |
| `SearchIndex.OrphanHasNoPath` | internal/store/sqlite/store.go:157-184 | a row under a dead parent has none |
| `SearchIndex.ExactNeedsAnchored` | internal/store/sqlite/store.go:125-211 | an exact index implies anchored ready rows |
| `SearchIndex.UpsertKeepsExact` | internal/store/sqlite/store.go:186-205 | after a change to a row that is no ready row's parent, one upsert puts the index right |
| `SearchIndex.TrashKeepsExact` | internal/store/sqlite/store.go:590-604 | trashing needs no rebuild: dropping the trashed rows leaves an exact index |
| `SearchIndex.PurgeKeepsExact` | internal/store/sqlite/store.go:653-667 | removing any set of deleted rows closed under descendants, with their index rows, leaves an exact index |
| `Stores.Store.FindChildByName` | internal/store/sqlite/store.go:669-674 | finds the live child of that name, if there is one |
| `Stores.Store.PathForNode` | internal/store/sqlite/store.go:157-184 | the names from the highest row climbed to, down to the node; none if a row on the way is deleted or missing; at most 64 rows |
| `Stores.Store.FolderSubtreeIds` | internal/store/sqlite/store.go:570-588 | the breadth-first search ends and returns exactly the rows reached through ready children |
| `Stores.Store.Open` | internal/store/sqlite/store.go:26-111 | opening succeeds exactly when every ready row has a live parent, and then the index is exact; a failed opening leaves right rows only |
| `Stores.Store.UpsertFts` | internal/store/sqlite/store.go:186-205 | the index rows of the node are replaced by the right one, or only deleted, or left alone on an error |
| `Stores.Store.RebuildFts` | internal/store/sqlite/store.go:125-155 | succeeds exactly when every ready node has a path, and then the index is exact |
| `Stores.Store.Create` | internal/store/sqlite/store.go:377-400 | inserts exactly when the id is unused, the parent exists and no live sibling has the name |
| `Stores.Store.MakeReady` | internal/store/sqlite/store.go:402-420 | a live file turns ready; an exact index stays exact exactly when its folder is live |
| `Stores.Store.UpdateSize` | internal/store/sqlite/store.go:422-435 | sets the size of a live row and keeps the tree |
| `Stores.Store.Replace` | internal/store/sqlite/store.go:437-475 | publishes a staged file over the file that held the name, or refuses and changes nothing; index and anchoring as above |
| `Stores.Store.Rename` | internal/store/sqlite/store.go:477-498 | renames exactly when no live sibling holds the name; keeps tree and index |
| `Stores.Store.Move` | internal/store/sqlite/store.go:500-561 | the row moves exactly when the target is a live folder outside the subtree and the name is free there, else nothing changes; it reports success exactly when, besides, the parent stays, the row is a file, or all ready rows are anchored; keeps the tree, and the index where it was exact |
| `Stores.Store.SoftDelete` | internal/store/sqlite/store.go:590-604 | marks one live row deleted and drops its index rows |
| `Stores.Store.HardDelete` | internal/store/sqlite/store.go:653-667 | removes a row, its parts, hashes and index rows exactly when no row names it as parent |
| `Stores.Store.ListTrashRoots` | internal/store/sqlite/store.go:606-632 | deleted rows whose parent is not deleted: all of them if they fit the limit, else as many as the limit; a limit that is not positive or above 500 counts as 200 |
| `Stores.Store.ListDeletedChildren` | internal/store/sqlite/store.go:634-651 | exactly the deleted children |
| `Stores.Store.ReplaceParts` | internal/store/sqlite/store.go:676-697 | replaces the part rows of one file as a whole, exactly when no part number or row id repeats; rows without an id get unused ones |
| `Stores.NumberedRows` | internal/store/sqlite/store.go:676-697 | the rows written are the parts given, one for one, under ids of their own |
| `Services.Drive.Mkdir` | internal/app/services.go:212-230 | creates the row exactly when the name is valid and free and the parent live; the tree stays one exactly when the parent is a folder |
| `Services.Drive.Rename` | internal/app/services.go:575-605 | renames to the trimmed name exactly when it is valid and free |
| `Services.Drive.Move` | internal/app/services.go:607-634 | the service checks and the store move together: accepted exactly when target and name allow, with the error of the rebuild passed on |
| `Services.Drive.MoveToTrash` | internal/app/trash_share.go:15-35 | the recursion deletes exactly the rows that ready children lead to; keeps tree and index; strands uploads exactly when one is inside |
| `Services.Drive.Purge` | internal/app/trash_share.go:41-59 | succeeds exactly when the whole subtree is deleted, and then removes exactly it, with its parts; a purge that stops half way removed deleted rows only |
| `Services.Drive.EmptyTrash` | internal/app/trash_share.go:61-72 | removes deleted rows only, each with all its descendants; with no live row under a deleted one it succeeds and leaves no deleted row exactly when there were at most 500 roots |
| `Services.TrashThenPurge` | internal/app/trash_share.go:15-92 | after a trash the purge removes exactly the subtree, if and only if no unfinished upload was inside; everything else is untouched |
| `UploadStart.UniqueChildName` | internal/app/services.go:442-459 | the first free candidate name; fails exactly when all thousand are held |
| `UploadStart.CandidateNames` | internal/app/services.go:447-453 | the candidates are "stem (i)ext", the extension being what follows the last dot |
| `UploadStart.CandidatesApart` | internal/app/services.go:447-453 | the candidates are pairwise different |
| `UploadStart.HeldClose` | internal/app/upload_storage.go:56-67 | releasing a reservation gives back exactly its size |
| `UploadStart.Reservations.Reserve` | internal/app/upload_storage.go:40-55 | grants exactly when there is room; the counter stays the sum of the open reservations and within the free space less the reserve |
| `UploadStart.Reservations.Release` | internal/app/upload_storage.go:56-67 | gives the bytes back once, however often it runs |
| `DriveRuns.StepKeeps` | internal/store/sqlite/store.go:377-667 | every call keeps the tree; ready rows stay anchored and the index exact through every call but a finish or publish under a dead folder, and not through that; unfinished uploads stay anchored through every call but a trash over one |
| `DriveRuns.EveryRunKeepsTree` | internal/store/sqlite/store.go:377-667 | the tree holds after every run of create, publish, rename, move, trash, purge and merge |
| `DriveRuns.IndexedRuns` | internal/store/sqlite/store.go:125-211 | the index is exact and ready rows are anchored in every state of a run exactly when each finish and publish in it happens under a live folder |
| `DriveRuns.EntriesOfRun` | internal/store/sqlite/store.go:125-205 | in every state of a run without such calls each ready row has one entry, its name and its parent's path extended by it |
| `DriveRuns.EveryRunKeepsIndex` | internal/store/sqlite/store.go:125-211 | after every run that trashes no folder with an unfinished upload, the index holds exactly one entry per ready node: its name, and the path of its parent extended by it |
| `DriveRuns.RunHasNoCycle` | internal/store/sqlite/store.go:500-561 | in every run each row reaches the root and is not its own ancestor |
| `DriveRuns.StrandedUpload` | internal/app/trash_share.go:24-32 | a run that trashes a folder with an unfinished upload ends with a ready file that has no path and no index entry |
| `DriveCalls.CallMove` | internal/store/sqlite/store.go:500-561 | an accepted move is a step of the run model, also when it reports the error of the rebuild; a refused one changes nothing |
| `DriveCalls.CallMkdir` | internal/app/services.go:212-230 | the method is a step of the run model under a folder, or changes nothing |
| `DriveCalls.CallStage` | internal/app/services.go:301-315 | opening an upload is a step of the run model under a folder, or changes nothing |
| `DriveCalls.CallSaveParts` | internal/store/sqlite/store.go:676-697 | the method is a step of the run model, or changes nothing |
| `DriveCalls.CallResize` | internal/store/sqlite/store.go:422-435 | the method is a step of the run model, or changes nothing |
| `DriveCalls.CallFinish` | internal/store/sqlite/store.go:402-420 | the method is a step of the run model, or changes nothing |
| `DriveCalls.CallAbandon` | internal/store/sqlite/store.go:590-604 | dropping a file is a step of the run model, or changes nothing |
| `DriveCalls.CallRename` | internal/app/services.go:575-605 | the method is a step of the run model, or changes nothing; renaming to the present name changes nothing |
| `DriveCalls.CallPublish` | internal/store/sqlite/store.go:437-475 | the method is a step of the run model, or changes nothing |
| `DriveCalls.CallTrash` | internal/app/trash_share.go:15-35 | the method is a step of the run model, or changes nothing |
| `DriveCalls.CallPurge` | internal/app/trash_share.go:41-92 | the method is a step of the run model, also when it stops half way |
| `DriveCalls.CallEmptyTrash` | internal/app/trash_share.go:61-72 | the method is a step of the run model, finished or not |
| `DriveCalls.CallMerge` | internal/store/sqlite/import.go:22-203 | a merge that places its rows under folders is a step of the run model, and one of a database with folder parents does; a refused merge changes nothing |
| `GatewayProofs.NameUnique` | internal/s3gw/store.go:69-85 | a path of names leads to one row |
| `GatewayProofs.PathUnique` | internal/s3gw/store.go:132-151 | a row has one path of names |
| `GatewayProofs.HasPath` | internal/s3gw/server.go:115-122 | an anchored ready row has a live path from the root |
| `GatewaySteps.PublishKeeps` | internal/s3gw/server.go:534-564 | the publish step stores one complete object at its own address and nothing else |
| `GatewayPuts.PublishMeans` | internal/s3gw/server.go:534-564 | a publish of a staged upload puts the whole object at its key exactly when no folder and no other unfinished upload holds the name there, over a finished object if there is one; otherwise nothing shows |
| `GatewayPuts.PublishAsReplace` | internal/store/sqlite/store.go:437-475 | the gateway's step publishes exactly when the transaction of the store succeeds on the same table, with the same result |
| `GatewayPuts.PutEnds` | internal/s3gw/server.go:534-564 | a put that nothing disturbs returns with its object at its key, folders made on the way, exactly when the bucket is there, missing folders have valid names and nothing is in the way; otherwise nothing shows |
| `GatewayEnds.FailedPutCleansUp` | internal/app/upload_storage.go:132-150 | the rollback of a put leaves none of its messages and part rows, and its row deleted |
| `GatewayEnds.FailureRollsBack` | internal/app/upload_storage.go:132-150 | so does a put that fails while it sends or before its size is written |
| `GatewayEnds.UploadOpens` | internal/s3gw/server.go:432-456 | a multipart upload is opened for its bucket and key exactly when the bucket is there |
| `GatewaySteps.DeleteObjectKeeps` | internal/s3gw/operations.go:49-61 | the delete step erases the address of its request, or nothing if the row found is not published, exactly unless that row is published under another name; then it erases that other address, and the lookup had met it before its publish |
| `GatewayEnds.RemoveEnds` | internal/s3gw/operations.go:49-61 | a delete that nothing disturbs returns with its key free and every other key as it was |
| `GatewaySteps.SendKeeps` | internal/app/services.go:370-440 | sending a part of a staged object changes no object |
| `GatewaySteps.DeleteMessagesKeeps` | internal/app/upload_storage.go:132-150 | a rollback deletes no message of a published object |
| `GatewayRefinement.StepRefines` | internal/s3gw/server.go:78-162 | each gateway step makes the flat map's step named by its request (a publish stores at its key, an object delete erases its key, all else shows nothing), exactly unless an object delete strays |
| `GatewayRefinement.EveryRunRefines` | internal/s3gw/server.go:78-162 | every interleaving of requests, bucket removals and restarts keeps the invariant, and agrees with the flat object map throughout exactly when no object delete of it strays |
| `GatewayRefinement.PublishedFindsSuffice` | internal/s3gw/operations.go:49-61 | where no lookup of an object delete meets an unpublished upload, the gateway is the flat map throughout |
| `GatewayRaces.RaceLosesObject` | internal/s3gw/operations.go:49-61 | in any state in which a delete found the staged row of a put of another key, publish and then delete erase the key just put |
| `GatewayRaces.DeleteRemovesOtherKey` | internal/s3gw/operations.go:49-61 | a run from an empty drive in which deleting one key erases another |
| `GatewayRefinement.EveryRunAnchored` | internal/s3gw/server.go:115-122 | in every reachable state each ready row has a live path, and each open multipart upload has its bucket |
| `GatewayRefinement.BucketDeleteIsSafe` | internal/s3gw/operations.go:95-139 | no step of a bucket removal loses an object or the bucket of an open upload |
| `GatewayEnds.BucketMakes` | internal/s3gw/server.go:197-216 | a bucket request that nothing disturbs leaves the bucket there exactly when it was, or its name is valid and free |
| `GatewayEnds.RemovableMeans` | internal/s3gw/operations.go:95-134 | the checks of a bucket delete pass exactly when no key of the bucket holds an object and no upload to it is open |
| `GatewayEnds.BucketGoes` | internal/s3gw/operations.go:95-139 | an idle gateway removes such a bucket, and nothing else shows |
| `Keys.JoinSplit` | internal/s3gw/store.go:27-32 | joining the segments of a path gives the path back |
| `Keys.SplitJoin` | internal/s3gw/store.go:27-32 | splitting joined segments gives the segments back |
| `Keys.SplitCat` | internal/s3gw/store.go:20-25 | a slash splits a key into the segments on both sides |
| `Keys.KeySegments` | internal/s3gw/store.go:20-25 | folder segments and name of a key are its segments |
| `Keys.PrefixFolderIs` | internal/s3gw/store.go:36-47 | the folder of a prefix, with a slash, is a prefix of it |
| `Keys.LessTotal` | internal/s3gw/server.go:315-319 | byte order is a strict total order |
| `Keys.LessMeans` | internal/s3gw/server.go:308-315 | a text comes first that ends, or has the smaller character, where the two first differ |
| `Utf8.LessIsByteOrder` | internal/s3gw/server.go:308-315 | the order is that of the UTF-8 bytes |
| `Utf8.ValidKeyMeans` | internal/s3gw/server.go:567-581 | a key is valid exactly with 1 to 1024 bytes and valid names between its slashes, the last one possibly empty |
| `Text.TrimSpaceIs` | internal/domain/validation.go:13-14 | trimming removes the spaces at both ends and nothing else |
| `Text.ValidNameMeans` | internal/domain/validation.go:13-25 | a name is valid exactly if, trimmed, it has 1 to 255 characters, none a slash or backslash, and is not one or two dots |
| `Walks.WalkTree` | internal/s3gw/store.go:132-151 | reports each ready file below the node once, with its full key, and nothing else |
| `Walks.ReportsChild` | internal/s3gw/store.go:137-149 | what a walk reports below a child is what the walk of the child reports |
| `Lookups.ResolveFolder` | internal/s3gw/store.go:69-85 | succeeds exactly when the path leads to a folder, and finds it |
| `Lookups.LookupObject` | internal/s3gw/store.go:115-129 | finds the live row at a valid key, if there is one, and only it |
| `Lookups.LookupIsWalk` | internal/s3gw/store.go:115-151 | for a valid key, a lookup finds a ready file exactly when a walk of the bucket reports that key with that file |
| `Lookups.PrefixWalk` | internal/s3gw/server.go:271-289 | walking the prefix's folder and filtering reports what walking the bucket and filtering does |
| `Lookups.KeyHasFolder` | internal/s3gw/server.go:275-283 | where the prefix's folder is missing no key has the prefix |
| `Lookups.KeysBelow` | internal/s3gw/server.go:271-289 | gathers exactly the keys of the bucket that have the prefix, each once |
| `Listing.KindsDoNotOverlap` | internal/s3gw/server.go:290-304 | no text is listed both as a key and as a common prefix |
| `Listing.CollapseMeans` | internal/s3gw/server.go:290-304 | a key is listed as a common prefix exactly when the delimiter occurs after the prefix, up to the end of its first occurrence there |
| `Listing.ListPage` | internal/s3gw/server.go:286-320 | one page: sorted, after the marker, complete or cut at the page size with lines left over and the last key as the next marker; without a marker a listing that fits the page is whole |
| `Listing.PagesVisitOnce` | internal/s3gw/server.go:304-319 | following the markers visits each key or common prefix after the first marker exactly once, in byte order |
| `Listing.PagesEnd` | internal/s3gw/server.go:309-317 | each truncated page leaves strictly fewer lines, so the pages end |
| `ObjectListing.ListObjects` | internal/s3gw/server.go:218-344 | a page of exactly the keys of the bucket with the prefix; without a marker all of them if they fit |
| `ObjectListing.KeysAreAddresses` | internal/s3gw/server.go:286-304 | the keys a listing reports are exactly the addresses of the flat object map |
| `ObjectListing.EveryRunPlain` | internal/s3gw/server.go:567-581 | in every gateway run names hold no slash and folders have names |
| `ImportOrder.DepthWalk.Walk` | internal/store/sqlite/import.go:290-312 | ends on any parent graph; the memo holds the level of each row off a cycle and a huge depth for the others |
| `ImportOrder.OrderedImportNodes` | internal/store/sqlite/import.go:284-321 | returns the stable sort of the rows by level: a permutation, a function of the rows, in which each row whose parent chain ends comes after its parent |
| `ImportOrder.SortIsStable` | internal/store/sqlite/import.go:313-320 | rows of one level keep their order |
| `ImportOrder.BackOnItself` | internal/store/sqlite/import.go:303-306 | a row met again during its own walk is on a cycle |
| `MergeProofs.StepAdds` | internal/store/sqlite/import.go:67-182 | a step leaves rows and parts that were there alone, keeps the mapping and the content index |
| `MergeProofs.StepCounts` | internal/store/sqlite/import.go:67-182 | each row but the root adds one to exactly one of the five counters |
| `MergeProofs.PartsCopied` | internal/store/sqlite/import.go:146-162 | the parts are copied one for one under row ids used nowhere else |
| `MergeProofs.StepTree` | internal/store/sqlite/import.go:83-139 | a step keeps the tree: live names stay unique, no cycle, folder parents |
| `MergeRuns.RunMerges` | internal/store/sqlite/import.go:67-202 | a merge is additive; each new row has the kind, size, type and channel of its imported row, its name or a suffixed form of it because a sibling holds the name, its id unless that is taken, and sits under the image of its parent; new files carry the same parts |
| `MergeContents.RunContents` | internal/store/sqlite/import.go:90-181 | each mapped file with a hash is the node the content index has for it, each mapped file without one is new, each mapped folder is new or has the name; the index gains rows of new files only |
| `MergeContents.RunSummary` | internal/store/sqlite/import.go:67-182 | the summary counts what came of each row: folders created and merged, files imported, renamed and skipped, rows passed over, parts and hashes written |
| `MergeContents.RunFails` | internal/store/sqlite/import.go:67-182 | a merge fails exactly when it comes to a row for which the name and all suffixed names are held, or whose part numbers repeat |
| `MergeSpec.ExtensionIs` | internal/store/sqlite/import.go:381-387 | the extension of a file name is what follows its last dot, with the dot |
| `MergeSpec.SuffixedNames` | internal/store/sqlite/import.go:381-399 | " (imported)" and " (imported i)" go before the extension of a file and at the end of a folder name |
| `MergeSpec.SuffixedApart` | internal/store/sqlite/import.go:388-399 | the suffixed names are pairwise different |
| `MergeRuns.RunTree` | internal/store/sqlite/import.go:67-202 | a merge keeps the tree, and what is anchored, exactly when each new row is placed under a folder |
| `MergeRuns.RunUnderFolders` | internal/store/sqlite/import.go:67-202 | importing a database whose parents are folders places each new row under a folder |
| `MergeRuns.RunCounts` | internal/store/sqlite/import.go:67-182 | the five counters add up to the number of rows other than the root |
| `MergeRuns.RunMaps` | internal/store/sqlite/import.go:67-88 | a row is mapped exactly when it and all its ancestors are importable and reach top level |
| `MergeRuns.GoodIsGrounded` | internal/store/sqlite/import.go:284-321 | such a row is neither on nor below a parent cycle |
| `MergeTwice.SecondMerge` | internal/store/sqlite/import.go:98-182 | a second merge of the same rows adds no node, part or hash row exactly when each imported file has a hash and no live file holds the name of an imported folder where it belongs |
| `MergeTwice.FolderAgain` | internal/store/sqlite/import.go:90-113 | a folder whose name no file holds is found again |
| `MergeTwice.FileAgain` | internal/store/sqlite/import.go:115-126 | a file with a hash is recognised again |
| `MergeDatabases.Transaction.UniqueImportName` | internal/store/sqlite/import.go:381-399 | the first free suffix; the result is free exactly when one of the 999 is |
| `MergeDatabases.Transaction.ImportAllParts` | internal/store/sqlite/import.go:146-162 | writes the copied parts exactly when no part number repeats |
| `MergeDatabases.Transaction.ImportFolder` | internal/store/sqlite/import.go:90-113 | merges into a folder of that name or inserts one |
| `MergeDatabases.Transaction.ImportFile` | internal/store/sqlite/import.go:115-181 | skips known content, or inserts the file with its parts and hash |
| `MergeDatabases.MergeDatabase` | internal/store/sqlite/import.go:22-203 | all or nothing; the committed tables are those of the merge run over the stable order of the rows, with every row, name, part, mapping and count as stated for runs; the store is in order afterwards exactly when new rows are placed under folders; keeps the index |
| `MergeDatabases.MergeTwiceInARow` | internal/store/sqlite/import.go:22-203 | of two calls on the same database the second leaves the tables as they are exactly under the condition of the second merge |
| `Witnesses.FailingMove` | internal/store/sqlite/store.go:557-559 | after a run that stranded an upload, a folder move is accepted and its rebuild fails |
| `Witnesses.BlockedPurge` | internal/app/trash_share.go:41-59 | a trashed folder with an unfinished upload, which a purge does not remove |
| `Witnesses.CrowdedTrashStays` | internal/app/trash_share.go:61-72 | a trash of 501 roots |
| `Witnesses.EmptyCrowdedTrash` | internal/app/trash_share.go:61-72 | emptying it succeeds and leaves a deleted row |
| `Witnesses.UnhashedFileAgain` | internal/store/sqlite/import.go:115-126 | a file without a hash is inserted by every merge |
| `Witnesses.BlockedFolderAgain` | internal/store/sqlite/import.go:90-113 | a folder renamed behind a file is inserted by every merge |
| `Chunks.SplitChunks` | internal/domain/chunk.go:7-24 | the pieces concatenate to the data, all but the last of full size, one piece for empty data |
| `Chunks.RegularUnique` | internal/domain/chunk.go:7-24 | there is only one such way to cut |
| `Chunks.MapRangeToParts` | internal/domain/chunk.go:34-72 | fails exactly for a range outside the file; reads are in order, inside their parts, and empty only for empty parts |
| `Chunks.ReadsBringSlice` | internal/domain/chunk.go:34-72 | the reads concatenate to exactly the requested slice |
| `Uploads.StepKeeps` | internal/app/services.go:370-440 | what every step of reader, workers and rollback keeps |
| `Uploads.SuccessHoldsStream` | internal/app/services.go:316-440 | a successful upload lists parts 0 to n-1, cut as the splitter cuts, whose messages hold the stream; the node has its size |
| `UploadProgress.UploadSucceeds` | internal/app/services.go:316-440 | for every non-empty unbroken stream, chunk size and number of workers there is a run that succeeds |
| `UploadProgress.FaultlessNeverFails` | internal/app/services.go:370-440 | a run in which no worker and no database call fails and nobody cancels never drains as failed and never rolls back |
| `UploadProgress.SuccessHadNoFault` | internal/app/services.go:397-432 | a successful run had no failed worker, no reader that gave up and no failed database call |
| `UploadProgress.NeverStuck` | internal/app/services.go:370-440 | short of the end some step without a fault is possible: the reader reads on, and launches while fewer than the given number of workers run |
| `UploadProgress.CanGiveUp` | internal/app/services.go:394-398 | a reader that waits for a worker slot can give up once a worker failed or the request was cancelled, and the run then ends as a failure |
| `UploadProgress.RunsEnd` | internal/app/services.go:370-440 | a run has at most three steps a byte and fifteen more, cancellations not counted |
| `UploadProgress.RollbackCleansUp` | internal/app/upload_storage.go:132-150 | a rollback whose calls work deletes every message and part row of the upload and its node |
| `Uploads.RunIsBounded` | internal/app/services.go:370-440 | at most the given number of uploads in flight; none once the rollback begins; the node is ready in success only |
| `Uploads.FailureIsRecoverable` | internal/app/upload_storage.go:132-150 | after a failure each message sent is deleted or still listed, unless recording and deletion both failed |
| `Uploads.RollbackCovers` | internal/app/services.go:397-432 | the parts a rollback records and deletes are exactly those the workers reported |
| `Downloads.Downloader.WritePartSlice` | internal/app/services.go:552-569 | writes the slice of the part, or on an error a front of it; an error exactly when the message is gone or the call fails |
| `Downloads.Downloader.EnsureMediaCache` | internal/app/media_cache.go:34-88 | on success the cache file is the whole file; a fill fails only by a failed call or for an empty file, and then the cache is as before but for an unusable file of its own |
| `Downloads.Downloader.ServeLocalRange` | internal/app/media_cache.go:90-101 | copies the range, an error exactly for a file that is too short or a failed call; whatever fails, what was written is a front of it |
| `Downloads.Downloader.StreamParts` | internal/app/services.go:537-549 | streams exactly the range, or a front of it if a call failed |
| `Downloads.Downloader.ServeRange` | internal/app/services.go:510-549 | serves the range from the cache file, from a cache file filled first, or part by part: the same bytes, or a front of them if a call failed |
| `Downloads.Downloader.DownloadRange` | internal/app/services.go:482-550 | the same bytes from disk cache, filled cache or streamed parts; an I/O error only if a call failed, after a front of the range; refusals exactly as stated; other cache files stay |
| `RoundTrips.UploadReadsBack` | internal/app/services.go:370-440 | what a successful upload stored meets the premises of the download, with the stream as content |
| `RoundTrips.GetUploaded` | internal/s3gw/server.go:346-395 | a GET of a successfully uploaded file is unsatisfiable exactly when the header is refused, else serves exactly the bytes asked for or, if a call failed, a front of them; spelled out for the last n bytes, from a on, and from a to b |
| `ObjectRanges.ParseObjectRange` | internal/s3gw/util.go:90-130 | follows the header; an accepted range lies inside the object |
| `ObjectRanges.StandardForm` | internal/s3gw/util.go:90-130 | a header in the form of section 14.1.2 of RFC 9110 selects the bytes the section says |
| `ObjectRanges.SuffixForm` | internal/s3gw/util.go:105-111 | "bytes=-n" selects the last n bytes, or all if there are fewer |
| `ObjectRanges.OpenForm` | internal/s3gw/util.go:112-129 | "bytes=a-" selects from a to the end |
| `ObjectRanges.ClosedForm` | internal/s3gw/util.go:112-129 | "bytes=a-b" selects from a to b, or to the end if b is past it |
| `AwsChunked.AwsChunkReader.Read` | internal/s3gw/chunked.go:30-45 | delivers the next stretch of the payload; reports the end only after all of it, and a clean end only for a clean body |
| `AwsChunked.AwsChunkReader.NextChunk` | internal/s3gw/chunked.go:47-70 | a data chunk, the end, an error, or the panic of a size that is negative or too large to allocate |
| `AwsChunked.ReadWith` | internal/s3gw/chunked.go:30-45 | any sequence of non-empty buffers delivers the whole payload before the end |
| `AwsChunked.DecodeEncode` | internal/s3gw/chunked.go:47-70 | whatever the framing, the body decodes to the concatenated payloads |
| `AwsChunked.CutIsError` | internal/s3gw/chunked.go:47-70 | a body cut before the end of its closing header ends in an error |
| `AwsChunked.StandardHeaderFrames` | internal/s3gw/chunked.go:11-16 | the header clients send announces the size they mean: hexadecimal digits in either case, with an extension or none |
| `AwsChunked.HexHeader` | internal/s3gw/chunked.go:52-56 | a line of hexadecimal digits announces their value, with CRLF or LF, with an extension or without |
| `OctetTrims.OctetsTrim` | internal/s3gw/chunked.go:53 | trimming the bytes of a header trims the spaces of its text |
| `Multipart.CheckMeans` | internal/s3gw/multipart.go:149-178 | the checks pass exactly for strictly increasing numbers, matching ETags and parts of the least size but for the last |
| `Multipart.CheckError` | internal/s3gw/multipart.go:156-178 | an error is the complaint about the first request that does not pass: order, then part and ETag, then size |
| `Multipart.QuotesDropped` | internal/s3gw/multipart.go:170 | an ETag is compared without the quotes around it |
| `Multipart.MultipartTracker.CheckPart` | internal/s3gw/multipart.go:114-121 | a part is accepted exactly for a number from 1 to 10000 and a known upload |
| `Multipart.MultipartTracker.StagePart` | internal/s3gw/multipart.go:114-126 | opens a temporary file exactly while the directory of the upload is there, also if an abort ran since the lookup |
| `Multipart.MultipartTracker.CommitPart` | internal/s3gw/multipart.go:127-145 | a committed part is the latest version; a removed file commits nothing |
| `Multipart.MultipartTracker.RemoveFiles` | internal/s3gw/multipart.go:199-209 | an abort removes files of its own upload only |
| `Multipart.MultipartTracker.BeginAssemble` | internal/s3gw/multipart.go:156-179 | for an upload that was looked up before, the error is the first complaint of the checks |
| `Multipart.MultipartTracker.OpenNext` | internal/s3gw/multipart.go:180-191 | a part opens exactly while its file is there |
| `Multipart.MultipartTracker.EndAssemble` | internal/s3gw/multipart.go:192-197 | the stream is the concatenation of the latest versions, numbers strictly increasing, all but the last of the least size, ETags matching, whatever ran in between |
| `Multipart.CommitSessions` | internal/s3gw/multipart.go:138-144 | a commit cannot disturb an assembly under way |
| `Captions.ParseSRT` | internal/app/captions.go:16-57 | the loop computes the captions of the text, or fails |
| `Captions.GenerateSRT` | internal/app/captions.go:59-79 | the loop prints the captions |
| `Captions.TimeParses` | internal/app/captions.go:92-134 | a printed time is read back, spaces around it or not |
| `Captions.RoundTrip` | internal/app/captions.go:16-134 | parsing what was printed gives the captions back, for positive indices, 0 <= start < end and text of trimmed lines |
| `Captions.RoundTripWithEnds` | internal/app/captions.go:16-34 | also with CRLF or CR line ends |
| `Captions.LineEndsParse` | internal/app/captions.go:17-18 | a file parses the same with LF, CRLF and CR line ends |
| `Captions.UnnumberedLines` | internal/app/captions.go:26-31 | a block without an index line gets the number after the captions before it |
| `Captions.RefusedLines` | internal/app/captions.go:46-52 | a caption that does not end after it starts spoils the file; one without text is left out |
| `Captions.PrintedIndex` | internal/app/captions.go:62-70 | a caption without a positive index is printed with its position |
| `Captions.TimeReads` | internal/app/captions.go:92-134 | hours, minutes and seconds of any number of digits are read, and the fraction as if padded to three digits |
| `Numerals.FormatParses` | internal/s3gw/chunked.go:52-56 | a printed numeral parses to its number |

## Left out

- Telegram clients, HTTP handlers, sessions, signatures, tokens, OAuth, sharing, media tools and the web UI: input and output.
- The SQL engine and the file system: tables and directories are maps, transactions are atomic. A rebuild of the index fails for a row without a path, and callers pass that on or ignore it as the code does; other failures of statements are left out.
- Drive calls running at the same time as gateway requests: they do not take the namespace lock; drive runs take calls one at a time.
- Hash index: dedup by content hash and the re-pointing of a hash row by a later upload are modelled in the merge only.
- MergeDatabases.MergeDatabase: shares, edit projects, data rows, bot grants, social rows, timestamps and warnings are left out; the imported tables are given as values.
- Stores.Store.ListTrashRoots: the order by time of deletion is left out; which roots a full batch takes is left open.
- Services.Drive.Purge: the deletion of remote messages, thumbnails and cache files, whose errors the code ignores, is left out.
- GatewaySteps.SendKeeps: parts of one request are sent one after another here; their parallel sending is the subject of the upload model.
- Uploads.SuccessHoldsStream: hashing, the staging copy for dedup, the zero-byte staged object and thumbnails are left out; a stream is its bytes and whether it breaks off.
- Downloads.Downloader.DownloadRange: concurrent fills of one cache file, which the code runs as one, are one call here; the background fill may or may not have run.
- Multipart.MultipartTracker.EndAssemble: the readers are read as if at once; an open file keeps its bytes when its name is reused or removed.
- Captions.TimeParses: seconds as floating point and wrap-around of enormous hours are left out; times are exact milliseconds.
- Walks.WalkTree: errors of single queries are left out; a query answers or the request ends.
- Listing.ListPage: URL encoding of keys and markers is left out; the client is taken to decode them.
- UploadStart.UniqueChildName: name clean-up of a download name is left out.
- Job progress, configuration limits, quality ladder, bucket name checks, storage statistics, editor timelines: simple functions or text for other programs.
