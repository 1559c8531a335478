# Cloudify vSphere plugin: verified model

The plugin drives vSphere for Cloudify: it reads the inventory, places and
creates virtual machines, and changes their disks, network cards, controllers and
snapshots through platform tasks that may outlive one attempt at an operation.
This project models the algorithms behind that in Dafny and proves what they are
for.

| module | what it models |
|---|---|
| `DottedPaths`, `PropertyTree` | dotted property paths, and the tree of paths the client builds and merges before it asks the platform |
| `EntityCache` | rebuilding nested entities from the platform's flat answer, linking them by id to cached ones, and the cache |
| `Ranking`, `Placement` | filtering and rating hosts, the stable descending sort, and the scan that picks a host and a datastore |
| `AsyncTask` | the saved task: submit, wait, give up, resume before the next operation |
| `PortGroups` | the rollout of a standard port group to every host, with a stop possible at any point |
| `Controllers` | attaching a controller and telling its key by comparison with the keys before |
| `DiskNames`, `DiskCreation` | names and unit numbers of new disks, and their creation across retries |
| `Nics` | bringing a machine's network cards in line with the networks asked for, and the drift check |
| `Snapshots` | the snapshot tree and the backup, restore and remove operations |
| `Lists`, `Results`, `Runs` | lists as sets and sublists, missing answers and exceptions, and runs of an action system, as the others need them |
| `Partition`, `NetworkOrder` | checking and completing the connected networks, and putting the external one first |

Each module has the same shape. What the code computes is a function or a
predicate on values. What the code does step by step is a method, proved to
compute it; where the plugin keeps state between attempts (runtime properties,
the client's cache) the method belongs to a class with those fields. The
properties that span operations are lemmas about the functions, or about runs of
an action system (`Runs`) whose actions are the operations' steps, the platform's
replies, and what other parties do; for each class that takes part in one, what an
attempt does in one go is shown to be a run of the steps.

Where the code does not do what one might expect, the model follows the code, and
a lemma says exactly when it works out:

- The rating of a host is a product, so on a host that memory is overcommitted on
  a better processor ratio lowers it (`Placement.ProcessorRatioCounts`).
- The host count that ends the port-group rollout tells whether every listed host
  carried the port group exactly under the condition in `PortGroups.CountIsRight`.
  Hosts that are not listed break it both ways. Whichever listed host lacks the
  port group, an unlisted carrier stands in for it (`PortGroups.CountCanBeFooled`);
  and where all listed hosts carry it, an unlisted carrier keeps the attempt from
  ending as created (`PortGroups.CountNeedsNoOthers`). The attempt that begins a
  rollout ends in a retry exactly when there are hosts
  (`PortGroups.FirstAttemptRetries`). That created means carried holds all the
  same, because of what the rollout has recorded (`PortGroups.CreatedMeansCarried`).
- An empty list of known controller keys counts as none. So a retry can add a
  second controller exactly on the machines that had none of the type to begin
  with (`Controllers.SecondAddIffNoneKnown`).
- A failed disk request leaves the saved name behind; if somebody else has made a
  disk of that name by then, the retry takes it over
  (`DiskCreation.AnothersDiskIsAdopted`). The disk recorded is the storage's own
  exactly when its last task did not fail (`DiskCreation.AddedOnce`).
- The unit number of a new disk depends on the number of devices alone. So after
  units are given back the next one is unused exactly when the one whose turn it
  is by number is among them (`DiskNames.GivenBackUnits`).
- An update of the network cards trusts the recorded names. From current records
  it settles the machine at once, from stale ones exactly under the condition in
  `Nics.StaleRecords`, and in any case with a second update
  (`Nics.TwoUpdatesSettle`).
- A path requested both as a value and as a subtree, or below `obj`, makes the
  build of an entity fail whenever all properties are present, and on lists
  without such paths only a missing property or a dangling reference does
  (`EntityCache.SoundByList`).
- A snapshot removal that is begun again after its task was done is refused
  (`Snapshots.RemovedIsGone`).

The verifier checks the whole project with `dafny verify dfyconfig.toml`.

## Model

| member | source | states |
|---|---|---|
| `DottedPaths.Head` | vsphere_plugin_common/clients/__init__.py:334-336 | the part before the first dot: a dot-free prefix, followed by a dot unless it is everything |
| `DottedPaths.PrintParse` | vsphere_plugin_common/clients/__init__.py:332-357 | splitting a path at its first dot again and again loses nothing: joining the components gives the text back |
| `DottedPaths.ParsePrint` | vsphere_plugin_common/clients/__init__.py:332-357 | every list of dot-free components is what its text splits into |
| `DottedPaths.BelowIsTextPrefix` | vsphere_plugin_common/clients/__init__.py:374-380 | one path continues below another exactly when its text starts with the other's text and a dot |
| `PropertyTree.CanonicalUnique` | vsphere_plugin_common/clients/__init__.py:332-357 | a tree without empty subtrees is determined by the paths that can be read out of it |
| `PropertyTree.SameTreeIffSamePaths` | vsphere_plugin_common/clients/__init__.py:332-357 | two lists give the same tree exactly when they hold the same paths, in any order, with any repeats |
| `PropertyTree.TreeOfRepresents` | vsphere_plugin_common/clients/__init__.py:332-357 | merging single-path trees one by one gives a canonical tree of exactly the listed paths |
| `PropertyTree.RepresentsUnique` | vsphere_plugin_common/clients/__init__.py:332-357 | there is only one such tree for a list |
| `PropertyTree.ConvertProps` | vsphere_plugin_common/clients/__init__.py:332-357 | the builder's two passes, plain names first and then the dotted paths, give the canonical tree of exactly the listed paths |
| `PropertyTree.MergeProps` | vsphere_plugin_common/clients/__init__.py:359-372 | the key-by-key merge computes the union of the trees, whatever the order of the keys |
| `PropertyTree.MergeIsUnion` | vsphere_plugin_common/clients/__init__.py:359-372 | a path is in the merged tree exactly when it is in one of the two |
| `PropertyTree.MergeCanonical` | vsphere_plugin_common/clients/__init__.py:359-372 | merging keeps trees free of empty subtrees |
| `PropertyTree.MergeCommutes` | vsphere_plugin_common/clients/__init__.py:359-372 | merging is commutative |
| `PropertyTree.MergeIdempotent` | vsphere_plugin_common/clients/__init__.py:359-372 | merging a tree with itself gives the tree |
| `PropertyTree.MergeEmpty` | vsphere_plugin_common/clients/__init__.py:359-372 | the empty tree is neutral |
| `PropertyTree.MergeAssociates` | vsphere_plugin_common/clients/__init__.py:359-372 | merging is associative |
| `EntityCache.GetSubResults` | vsphere_plugin_common/clients/__init__.py:374-380 | exactly the entries below the component, cut; an error exactly when the component itself is a key |
| `EntityCache.CopyValues` | vsphere_plugin_common/clients/__init__.py:407-409 | the plain names of a level with their flat values; the error names one that is missing |
| `EntityCache.MakeKids` | vsphere_plugin_common/clients/__init__.py:448-460 | every subtree comes out as an object whose walks give the flat values; each error means a missing or an unclear path |
| `EntityCache.MakeNested` | vsphere_plugin_common/clients/__init__.py:389-470 | the build succeeds exactly when every requested path is present and none has a key above it; then walking the object along each path gives the flat value, with `name` normalised, and there is no other leaf |
| `EntityCache.ClearIffPrefixFree` | vsphere_plugin_common/clients/__init__.py:374-470 | for answers of requested paths and some of their own: on a list without a path below another of them only a missing path can fail the build, and where all are present it fails exactly when the list is not such a one |
| `EntityCache.SoundByList` | vsphere_plugin_common/clients/__init__.py:472-520 | whether a row, with its `obj`, can be built, told from the list of properties: on prefix-free lists exactly where it has them all and no reference dangles; where it has them all, exactly on such lists |
| `EntityCache.WalksByList` | vsphere_plugin_common/clients/__init__.py:448-470 | walking a built entity along the listed paths gives the row's values, text under a last component `name` in its normal form, and there are no leaves but these, id and obj |
| `EntityCache.StaticLinkIsExact` | vsphere_plugin_common/clients/__init__.py:425-446 | with distinct ids a static link holds exactly the referenced ids, in the order of the cache, and is refused exactly when one of them is not cached |
| `EntityCache.OtherLinksAreExact` | vsphere_plugin_common/clients/__init__.py:412-446 | a dynamic link holds exactly the referenced ids that are cached, in the order of the cache; a single link resolves to the first entity with the referenced id, or is refused exactly when it is not cached |
| `EntityCache.ReferencedInOrder` | vsphere_plugin_common/clients/__init__.py:425-432 | the linked entities stand in the order of the cache |
| `EntityCache.LastIsAfterTheDots` | vsphere_plugin_common/clients/__init__.py:462-463 | the component whose text is normalised where it is `name` is what follows the last dot |
| `EntityCache.LinkFields` | vsphere_plugin_common/clients/__init__.py:414-446 | the mapped fields, and only they, are replaced by their resolved references; the error means that some reference dangles |
| `EntityCache.MakeEntity` | vsphere_plugin_common/clients/__init__.py:389-470 | a root object is built exactly when all paths are present and clear and no reference dangles; its id and obj are the platform's, its links the resolved references, every other path the flat value, and there is no other leaf; it is retried exactly when a reference dangles and no plain name is missing |
| `EntityCache.BuildRows` | vsphere_plugin_common/clients/__init__.py:490-520 | one entity for each complete row, in order; it succeeds only when every row can be built or, where broken rows are skipped, misses something before a dangling reference is met, and then it does where no path has a key above it; every error has its cause in a row |
| `EntityCache.KeptInOrder` | vsphere_plugin_common/clients/__init__.py:490-520 | the complete rows are taken in their order, all of them where none misses a path |
| `EntityCache.GatheredAreDistinct` | vsphere_plugin_common/clients/__init__.py:490-522 | rows with distinct ids give entities with distinct ids |
| `EntityCache.Client.GetEntity` | vsphere_plugin_common/clients/__init__.py:472-524 | a cached name is answered from the cache; an error leaves the cache as it was and has its cause in a row; for a prefix-free list, without skipping, it succeeds exactly when every row has all listed properties and no reference dangles; success caches under that name alone the entities of exactly the complete rows, in their order; ids stay distinct within each cached name |
| `Ranking.SortDescending` | vsphere_plugin_common/clients/server.py:1242-1244 | the sorted list is a descending permutation |
| `Ranking.SortStable` | vsphere_plugin_common/clients/server.py:1242-1244 | items of equal rating keep their order |
| `Placement.PoolTreeIsReachable` | vsphere_plugin_common/clients/server.py:1512-1521 | a pool is listed for a host exactly when some way down from the base pool ends at it |
| `Placement.PoolsInOrder` | vsphere_plugin_common/clients/server.py:1512-1550 | each pool is listed right before what is below it, in the order of the children |
| `Placement.RecurseResourcePools` | vsphere_plugin_common/clients/server.py:1512-1521 | lists everything below a pool, each before what is below it |
| `Placement.GetResourcePool` | vsphere_plugin_common/clients/server.py:1267-1282 | the first pool of the name in the host's list; the error exactly when there is none |
| `Placement.EligibleMeans` | vsphere_plugin_common/clients/server.py:1116-1222 | the tests of a host, in the inventory's own terms: health, connection, maintenance, allowed hosts and clusters, a pool of the name, and each network of its kind |
| `Placement.UsedMemoryGrows` | vsphere_plugin_common/clients/server.py:1428-1437 | one machine more adds its memory; a template or an unreadable value adds nothing |
| `Placement.AssignedThreadsGrow` | vsphere_plugin_common/clients/server.py:1455-1463 | one machine more adds its threads; an unreadable value adds nothing |
| `Placement.GetHostFreeMemory` | vsphere_plugin_common/clients/server.py:1423-1438 | the host's memory less that of its machines, templates and unreadable values left out |
| `Placement.HostMemoryUsageRatio` | vsphere_plugin_common/clients/server.py:1466-1475 | times the host's memory it is what is left with the new machine |
| `Placement.MemoryRatioSign` | vsphere_plugin_common/clients/server.py:1164-1169 | the ratio is negative exactly when the machines that may run, with the new one, claim more than there is |
| `Placement.HostCpuThreadUsageRatio` | vsphere_plugin_common/clients/server.py:1440-1464 | the host's threads over all those assigned, unreadable values left out |
| `Placement.CpuRatio` | vsphere_plugin_common/clients/server.py:1440-1464 | the processor ratio is positive, and times the threads assigned with the new ones it is the host's threads |
| `Placement.CpuRatioIsFair` | vsphere_plugin_common/clients/server.py:1440-1464 | more threads on the host raise it, and more of them assigned lower it |
| `Placement.OneProcessorIsEnough` | vsphere_plugin_common/clients/server.py:1440-1464 | asking for a processor is enough to make the ratio defined and positive on every host with memory |
| `Placement.OvercommittedLast` | vsphere_plugin_common/clients/server.py:1242-1247 | no host that memory is overcommitted on is ranked before one that it is not |
| `Placement.BetterIsNotLower` | vsphere_plugin_common/clients/server.py:1242-1247 | with memory to spare, at least as good on both ratios is never rated lower |
| `Placement.ProcessorRatioCounts` | vsphere_plugin_common/clients/server.py:1242-1247 | a better processor ratio alone raises the rating exactly when memory is left over and lowers it exactly when it is overcommitted |
| `Placement.NetworksCovered` | vsphere_plugin_common/clients/server.py:1180-1197 | the set difference of normalised networks is empty exactly when the host has every network asked for, of the right kind |
| `Placement.CandidatesInOrder` | vsphere_plugin_common/clients/server.py:1141-1231 | there is a candidate for exactly the eligible hosts, each as often as it is known and in their order |
| `Placement.FindCandidateHosts` | vsphere_plugin_common/clients/server.py:1105-1265 | exactly the eligible hosts, ranked so that the product of the two ratios does not rise, each with its ratios as the quotients they are; the error exactly when no host is eligible |
| `Placement.FeasibleMeans` | vsphere_plugin_common/clients/server.py:1320-1379 | the tests of a datastore, in the inventory's own terms: allowed, healthy, accessible, and with space for the template and the memory |
| `Placement.Weighting` | vsphere_plugin_common/clients/server.py:1488-1510 | a weighting exactly when template and memory fit; it is what is left of the free space with the disk filled up |
| `Placement.BestDatastore` | vsphere_plugin_common/clients/server.py:1315-1383 | the first of the feasible datastores with the most free space; none exactly when there is no feasible one |
| `Placement.SelectHostAndDatastore` | vsphere_plugin_common/clients/server.py:1284-1421 | the scan follows a simple rule: the first host with room for the full disk, else the first with a feasible datastore, and its best datastore; the error exactly when no host has one |
| `Placement.ChoiceIsUnique` | vsphere_plugin_common/clients/server.py:1310-1412 | the rule fixes host and datastore |
| `Placement.Place` | vsphere_plugin_common/clients/server.py:589-620 | what is chosen passes every test, in the inventory's own terms, and is the rule's choice from the ranked list; it fails exactly when no pair of eligible host and feasible datastore exists; the resource pool lookup never fails |
| `AsyncTask.PollsStopAtFirst` | vsphere_plugin_common/clients/__init__.py:1143-1158 | the loop sleeps until the first reading that is not active, or gives up after a number of sleeps fixed by the allowance |
| `AsyncTask.WaitIsBounded` | vsphere_plugin_common/clients/__init__.py:1143-1158 | at most max(0, max_wait // 15) + 1 sleeps; a retry only after more than max_wait seconds and at most 15 more |
| `AsyncTask.LongEnough` | vsphere_plugin_common/clients/__init__.py:1143-1158 | a task that is done within the allowance is waited out |
| `AsyncTask.WaitLeaves` | vsphere_plugin_common/clients/__init__.py:1099-1178 | a retry leaves task and resource key saved, any other end of a listed task clears both, and a result is written only on success and only under the resource key |
| `AsyncTask.ReleasedWasSeen` | vsphere_plugin_common/clients/__init__.py:1130-1167 | a wait lets go of a task only after a reading that was not active, or when the task is not listed |
| `AsyncTask.Instance.WaitForTask` | vsphere_plugin_common/clients/__init__.py:1099-1178 | a retry is raised exactly when every reading within the allowance (300 seconds where none is given) is active, and leaves task and key saved; otherwise it sleeps until the first reading that is not, clears both, raises an error exactly when the task did not succeed, and where it did sets the resource key, if there is one, to the result; with no task to wait for it returns at once; what is stored is never behind |
| `AsyncTask.Instance.RunDeferredTask` | vsphere_plugin_common/__init__.py:47-50 | the operation goes on only when no task is saved: a saved and listed task that stays active for 21 readings raises a retry, and one that ends without success an error |
| `AsyncTask.StepKeepsInv` | vsphere_plugin_common/__init__.py:70-92 | every step, the platform's own included, keeps: a submitted task that is listed as queued or running is the one saved, with its own resource key, and no body is under way beside a saved one |
| `AsyncTask.NoBodyWithTaskInFlight` | vsphere_plugin_common/__init__.py:53-97 | in every run an operation's body is under way only when the platform lists no submitted task as queued or running; at most one ever is, the saved one |
| `AsyncTask.DeleteLeavesNothing` | vsphere_plugin_common/__init__.py:82-90 | in every run, a delete that comes to its end leaves no runtime property |
| `AsyncTask.ResumedResultUnderItsKey` | vsphere_plugin_common/clients/__init__.py:1112-1178 | the result of a task that is resumed goes under the key it was submitted with, nothing else changes, and the platform has the task as succeeded |
| `PortGroups.StepKeepsInv` | vsphere_plugin_common/clients/network.py:103-185 | every step, a stop or an outsider's included, keeps the records and the stage in line; in particular created means that every host listed then is recorded |
| `PortGroups.StepKeepsCarried` | vsphere_plugin_common/clients/network.py:145-174 | without removals by outsiders, every recorded host carries the port group, also between the platform call and the record of it |
| `PortGroups.StatusMovesForward` | vsphere_plugin_common/clients/network.py:107-178 | the stored status never goes back and skips no stage |
| `PortGroups.CreatedMeansCarried` | vsphere_plugin_common/clients/network.py:131-231 | in every run without removals by outsiders, recorded hosts carry the port group, and once created so does every host listed, however stale the counts |
| `PortGroups.NoHostTwice` | vsphere_plugin_common/clients/network.py:139-174 | in every run the recorded hosts are without repeats, and between two stops own calls add the port group to no host twice |
| `PortGroups.TotalOfDisjoint` | vsphere_plugin_common/clients/network.py:213-219 | with a host on one port group at most, the sum of the counts is the number of hosts that carry one |
| `PortGroups.CountIsExact` | vsphere_plugin_common/clients/network.py:187-231 | for every view: the count is the number of carriers, so it passes exactly when as many hosts carried the port group unlisted as were listed without it |
| `PortGroups.CountIsRight` | vsphere_plugin_common/clients/network.py:187-231 | the exact condition under which passing means that every listed host carried it |
| `PortGroups.CountIsRightWithin` | vsphere_plugin_common/clients/network.py:187-231 | so with no port group on an unlisted host it always does |
| `PortGroups.CountNeedsNoOthers` | vsphere_plugin_common/clients/network.py:176-192 | where every listed host carried it, the attempt ends as created exactly when no other host did |
| `PortGroups.CountCanBeFooled` | vsphere_plugin_common/clients/network.py:187-231 | whatever hosts are listed and whichever of them lacks the port group, one unlisted carrier makes the count pass |
| `PortGroups.FirstAttemptRetries` | vsphere_plugin_common/clients/network.py:176-185 | the attempt that begins the rollout ends in a retry exactly when there are hosts |
| `PortGroups.StopAnywhere` | vsphere_plugin_common/clients/network.py:161-174 | a run may be stopped after any of its actions, and leaves what was stored and who carries the port group by then |
| `PortGroups.Rollout.Create` | vsphere_network_plugin/network.py:58-118 | one `create` takes exactly a run of the protocol's actions after the lookup; it is done exactly when the status is created, refuses a taken name exactly when it has not begun, and otherwise adds the port group to exactly the listed hosts that were not recorded, and records them |
| `PortGroups.Rollout.CreatePortGroup` | vsphere_plugin_common/clients/network.py:103-185 | the client's part is such a run; it refuses a switch only before creating, adds to and records exactly the listed hosts that were not, and is done exactly when the count is the number of hosts |
| `PortGroups.CountHosts` | vsphere_plugin_common/clients/network.py:215-219 | the sum of the host counts |
| `Controllers.WantedKeys` | vsphere_plugin_common/clients/network.py:471-475 | the keys of exactly the devices of the type |
| `Controllers.FirstNew` | vsphere_plugin_common/clients/network.py:489-498 | a device of the type whose key is not known; none exactly when all are known |
| `Controllers.FirstNewIsFirst` | vsphere_plugin_common/clients/network.py:489-498 | the first such device of the list |
| `Controllers.AttemptIsARun` | vsphere_plugin_common/clients/network.py:463-504 | what an attempt does in one go is what the steps do, whatever its wait comes to and whatever happens to the machine during and after it |
| `Controllers.Attachment.AttachController` | vsphere_plugin_common/clients/network.py:463-504 | one attempt: it adds exactly when no keys are known, records them first, keeps them on every error, and returns the first new device of the list read afterwards |
| `Controllers.StepKeepsInv` | vsphere_plugin_common/clients/network.py:463-504 | every step keeps: the known keys are those recorded before the last add, and the key found is none of them |
| `Controllers.OneAddIfSomeKnown` | vsphere_plugin_common/clients/network.py:469-504 | in every run the key found was absent from the recorded keys; where these were not empty, any number of retries adds once |
| `Controllers.FoundWasMade` | vsphere_plugin_common/clients/network.py:463-504 | left alone, the key found is that of a device an own task made; at most two adds, and two only where the machine had no controller of the type to begin with |
| `Controllers.SecondAddIfNoneKnown` | vsphere_plugin_common/clients/network.py:467-487 | on every machine without a controller of the type, whatever keys are given out, a run in which a retry adds a second one and finds that |
| `Controllers.SecondAddIffNoneKnown` | vsphere_plugin_common/clients/network.py:467-487 | left alone, the retries can add twice exactly on these machines |
| `DiskNames.NumberOfPrint` | vsphere_plugin_common/clients/storage.py:252-268 | a printed number reads back as itself |
| `DiskNames.PrintIsPlain` | vsphere_plugin_common/clients/storage.py:265-268 | a printed number has no zero in front |
| `DiskNames.NumberGrows` | vsphere_plugin_common/clients/storage.py:252 | a digit more counts ten times what is before it |
| `DiskNames.PrintOfNumber` | vsphere_plugin_common/clients/storage.py:252-268 | a number without zeros in front prints as it was written |
| `DiskNames.SuffixOfSplit` | vsphere_plugin_common/clients/storage.py:248-253 | however a name splits at an underscore before its trailing number, the pattern finds this base and this number |
| `DiskNames.SuffixOfNumbered` | vsphere_plugin_common/clients/storage.py:248-268 | a generated name reads back as its base and its number |
| `DiskNames.MaxSuffixIsUsed` | vsphere_plugin_common/clients/storage.py:248-255 | the greatest number is that of some disk, unless no disk has one |
| `DiskNames.WellFormedMeans` | vsphere_plugin_common/clients/storage.py:244-247 | a name has the form exactly when the pattern for whole names matches it |
| `DiskNames.NewNameAsText` | vsphere_plugin_common/clients/storage.py:234-268 | over the texts alone: the base is that of the last name that splits at an underscore before a number, else the first name's stem; the number is one more than the greatest |
| `DiskNames.NewDiskName` | vsphere_plugin_common/clients/storage.py:234-268 | the loop over the disks gives, over the texts alone, the base of the last name that splits, or the first name's stem, with one more than the greatest number, without zeros in front; an error exactly when there is no disk, the pattern does not match the first name, or the base is empty |
| `DiskNames.NewNameIsFresh` | vsphere_plugin_common/clients/storage.py:234-268 | the new name differs from all there are and reads back as that base and the greatest number plus one |
| `DiskNames.NewNameIsWellFormed` | vsphere_plugin_common/clients/storage.py:244-268 | among names of the form it has the form too |
| `DiskNames.SuffixesGrow` | vsphere_plugin_common/clients/storage.py:234-268 | without deletions, later creates get strictly greater numbers |
| `DiskNames.NewNameStays` | vsphere_plugin_common/clients/storage.py:234-268 | without deletions, the name given at a create is among those in use at every later one |
| `DiskNames.UnitsAreTheFirstSlots` | vsphere_plugin_common/clients/storage.py:297-307 | from an empty controller the units are 0 to 6 and 8 to 15 in order, and exactly the sixteenth create and later ones are refused |
| `DiskNames.UnitsAreDistinct` | vsphere_plugin_common/clients/storage.py:297-307 | no unit is given twice, and none is 7 or above 15 |
| `DiskNames.NextUnitIsUnused` | vsphere_plugin_common/clients/storage.py:297-307 | the next unit is one not in use |
| `DiskNames.FullAtFifteen` | vsphere_plugin_common/clients/storage.py:297-307 | refused exactly at fifteen devices; below seven the unit is their number, above it the one after |
| `DiskNames.GivenBackUnits` | vsphere_plugin_common/clients/storage.py:297-307 | after any of the first n units are given back, the next one is unused exactly when the index of as many as are left is among them |
| `DiskCreation.PickController` | vsphere_plugin_common/clients/storage.py:270-293 | the only controller, or the first with the parent's key; the error exactly when there is no such one |
| `DiskCreation.Plan` | vsphere_plugin_common/clients/storage.py:234-312 | the request has the new name, the chosen controller and its next unit; each error exactly in its case and in the code's order |
| `DiskCreation.ScsiIdIsExact` | vsphere_plugin_common/clients/storage.py:356 | the text tells bus and unit apart |
| `DiskCreation.AddressIsFirst` | vsphere_plugin_common/clients/storage.py:338-356 | an address is the bus of the first controller with the key of the first disk with the name, and the unit of that disk |
| `DiskCreation.AddressIsMissing` | vsphere_plugin_common/clients/storage.py:338-353 | there is none exactly when no disk has the name or no controller has the first one's key |
| `DiskCreation.FindAddress` | vsphere_plugin_common/clients/storage.py:338-356 | the nested search computes the address of the first disk with the name |
| `DiskCreation.Storage.Request` | vsphere_plugin_common/clients/storage.py:214-322 | a request is made and its name saved exactly when it can be planned |
| `DiskCreation.Storage.Finish` | vsphere_plugin_common/clients/storage.py:323-358 | the saved name goes, and file name and address are recorded exactly when the disk is found |
| `DiskCreation.Storage.Create` | vsphere_storage_plugin/storage.py:97-148 | one attempt: nothing where a file name is recorded, no new request where a name is saved, otherwise request, wait and search, with what each end leaves |
| `DiskCreation.StepKeepsInv` | vsphere_plugin_common/clients/storage.py:212-358 | every step keeps what the last request's task has come to, the saved name, and the recorded file name and address in line |
| `DiskCreation.AddedOnce` | vsphere_plugin_common/clients/storage.py:212-358 | in every run: at most one request beyond the failed ones and one disk added; once the file name is recorded no name is saved, the id is that of the disk with it, and it is the storage's own exactly when its last task did not fail |
| `DiskCreation.ExactlyOneDisk` | vsphere_plugin_common/clients/storage.py:212-358 | where no task fails, any number of retries makes one request and records the one disk added |
| `DiskCreation.AnothersDiskIsAdopted` | vsphere_storage_plugin/storage.py:120-135 | on every machine where a disk can be created, a run in which another's disk of the same name is recorded |
| `DiskCreation.Resumed` | vsphere_plugin_common/clients/storage.py:323-358 | an attempt that finds a saved name makes no request and records what it finds under the name |
| `DiskCreation.AttemptIsARun` | vsphere_plugin_common/clients/storage.py:212-358 | what `Create` does in one go is what the steps do, in all its branches, whatever its wait comes to and whatever happens to the machine during and after it |
| `DiskCreation.DiskToDelete` | vsphere_plugin_common/clients/storage.py:381-390 | the last disk with the file name, none exactly when there is none |
| `DiskCreation.LastNamedAt` | vsphere_plugin_common/clients/storage.py:381-386 | no later disk has the name |
| `DiskCreation.OneDiskPerFile` | vsphere_plugin_common/clients/storage.py:381-386 | where no two disks share a file, deletion finds the disk that creation found |
| `DiskCreation.DeleteUndoesCreate` | vsphere_plugin_common/clients/storage.py:360-398 | deleting the disk just created gives the disks back |
| `Nics.RealNetworks` | vsphere_server_plugin/server.py:1264-1272 | the names under which the cards are recorded |
| `Nics.WantedMeans` | vsphere_server_plugin/server.py:1288-1304 | a card stays exactly when the first record with its address has a name that is asked for |
| `Nics.PartsAreInOrder` | vsphere_server_plugin/server.py:1288-1312 | those that stay and those that go are in the machine's order |
| `Nics.MissingInOrder` | vsphere_server_plugin/server.py:1284-1286 | the missing networks are in the order asked for |
| `Nics.NicsToRemove` | vsphere_server_plugin/server.py:1288-1304 | exactly the cards that are not recorded or whose name is not asked for, in their order |
| `Nics.AdditionsFor` | vsphere_server_plugin/server.py:1317-1325 | one addition for each missing network in the order asked for, with keys counting on from the cards that stay |
| `Nics.DeviceChanges` | vsphere_server_plugin/server.py:1264-1325 | all changes: the unwanted cards go, the missing networks come |
| `Nics.NetworkNameMeans` | vsphere_plugin_common/clients/__init__.py:1208-1244 | an NSX-T card is named by its network's id, a standard one by its device name, a distributed one by the last network with its key, and nothing else is without a name than a key of no network |
| `Nics.GetVmNetworks` | vsphere_plugin_common/clients/__init__.py:1183-1260 | one record for each card, with its address and, by the kind of its backing, the name of its network; the error exactly when a distributed port group's key belongs to no network of the machine |
| `Nics.Server.Update` | vsphere_server_plugin/server.py:1260-1339 | afterwards the cards are those wanted before and the arrivals, and the records say so, unless a network has no name, when they stay as they were |
| `Nics.CheckDrift` | vsphere_server_plugin/server.py:1129-1152 | a difference exactly when a card is not recorded or the recorded names are not those asked for, as sets |
| `Nics.DriftMeansChanges` | vsphere_server_plugin/server.py:1129-1325 | the drift check finds a difference exactly when the update has something to change |
| `Nics.DriftAfterStoring` | vsphere_server_plugin/server.py:1334-1339 | once the records are stored again, the drift check compares the real networks |
| `Nics.ConvergesExactly` | vsphere_server_plugin/server.py:1260-1339 | from current records, one update leads to exactly the networks asked for if and only if the platform reports the added ones under the names asked for, in any assignment |
| `Nics.StaleRecords` | vsphere_server_plugin/server.py:1260-1339 | from any records, it does so if and only if the cards that stay are on networks asked for and cover the names they are recorded under |
| `Nics.Converges` | vsphere_server_plugin/server.py:1129-1339 | from current records, one update leaves exactly the networks asked for, every card recorded, no drift, and nothing for another update to change |
| `Nics.TwoUpdatesSettle` | vsphere_server_plugin/server.py:1129-1339 | whatever the records say at first, two updates do |
| `Snapshots.Find` | vsphere_plugin_common/clients/server.py:1003-1012 | a snapshot of the name, none exactly when the name is absent |
| `Snapshots.FindIsFirst` | vsphere_plugin_common/clients/server.py:1003-1012 | the lookup returns the first match in preorder |
| `Snapshots.InsertAddsOne` | vsphere_plugin_common/clients/server.py:995-1000 | a new snapshot adds its name at one position, wherever the platform puts it |
| `Snapshots.DeleteRemovesOne` | vsphere_plugin_common/clients/server.py:1033-1054 | removing a snapshot with none on top takes out the one the lookup finds and nothing else |
| `Snapshots.InsertKeepsParents` | vsphere_plugin_common/clients/server.py:973-1001 | no snapshot changes its parent when one is added |
| `Snapshots.DeleteKeepsParents` | vsphere_plugin_common/clients/server.py:1033-1054 | nor when one is removed |
| `Snapshots.ListedAreOnTop` | vsphere_plugin_common/clients/server.py:1044-1050 | the names listed in the refusal are exactly those of the snapshots on top |
| `Snapshots.RemoveUndoesBackup` | vsphere_plugin_common/clients/server.py:973-1054 | removing the snapshot just taken gives the tree back |
| `Snapshots.StepKeepsNames` | vsphere_plugin_common/clients/server.py:973-1054 | what each operation does to the names, and that they stay unique |
| `Snapshots.RemovedIsGone` | vsphere_plugin_common/clients/server.py:1033-1042 | a removal begun again after it was done is refused |
| `Snapshots.RunKeepsCount` | vsphere_plugin_common/clients/server.py:973-1054 | over every run names stay unique and the number of snapshots is the initial one plus backups minus removals |
| `Snapshots.Machine.BackupServer` | vsphere_plugin_common/clients/server.py:973-1001 | refused exactly for a name in use; otherwise the name is added at one position; a retry only waits |
| `Snapshots.Machine.RestoreServer` | vsphere_plugin_common/clients/server.py:1014-1031 | refused exactly for an absent name; the tree stays |
| `Snapshots.Machine.RemoveBackup` | vsphere_plugin_common/clients/server.py:1033-1054 | refused exactly for an absent name or with snapshots on top, which it lists; otherwise the name alone is taken out |
| `NetworkOrder.Review` | vsphere_server_plugin/server.py:139-163 | the loop over the entries, in any order: an error exactly when some entry is not accepted, otherwise empty texts replaced |
| `NetworkOrder.ValidMeans` | vsphere_server_plugin/server.py:129-163 | what is accepted, key by key |
| `NetworkOrder.CompletedMeans` | vsphere_server_plugin/server.py:113-175 | what becomes of each entry, key by key |
| `NetworkOrder.ValidateConnectNetwork` | vsphere_server_plugin/server.py:105-175 | accepted exactly when named, not on both kinds of switch, and every entry is known and of its type; then a missing `use_dhcp` is true, any other missing flag false, a missing or empty text nothing, and every flag and text given stays |
| `NetworkOrder.CompletedIsFixed` | vsphere_server_plugin/server.py:113-175 | a completed network has all ten entries, each of its type, and checking it again changes nothing |
| `NetworkOrder.HandleNetworks` | vsphere_server_plugin/server.py:178-205 | refused exactly for two external networks, else for two management networks, else for an invalid one; otherwise each is completed in its place, but the external one goes to the front |
| `NetworkOrder.HandledIsPermutation` | vsphere_server_plugin/server.py:195-205 | each network comes out once, with all its entries, and none but the first is external |
| `NetworkOrder.OthersKeepTheirOrder` | vsphere_server_plugin/server.py:195-205 | the others stay in their order |
| `NetworkOrder.HandledAgain` | vsphere_server_plugin/server.py:178-205 | handling the result again accepts it and gives it back |

## Left out

- Connection, SSL, REST, file upload, OVF and ISO code, timers and logging: input and output only. The platform is its replies, which the model quantifies over.
- The construction of pyVmomi specifications for cards, customization, USB, PCI and serial devices, boot order and cdrom: field copying.
- Datacenter, cluster, datastore, folder and host nodes, resource-pool creation, IP pools and distributed port groups: one task each, covered by `AsyncTask`.
- `unquote` and lower-casing of names: a function parameter.
- `Placement.CpuRatio`: takes it that a host has at least one processor thread.
- Rounding: the ratios of the placement are exact quotients.
- Python's in-place sort of the candidate list: `Ranking.Sort` stands for it, by its specification (descending, stable).
- `PropertyTree.ConvertProps`: excludes `_values` as a component of a property path other than the last, as the code breaks on it.
- Repeated splitting: a path is split into its components once; the code splits it level by level, which `DottedPaths` shows to be the same.
- `EntityCache.Client.GetEntity`: excludes answers that lack `obj`, names that are not text, links on the fields `id`, `obj` and `name`, and links on values that are not references, as the code breaks on them or never asks for them.
- `EntityCache.BuildRows`: does not say which error is raised when one subtree of a row misses a path and another has a path with a key above it, nor which of several missing paths is reported: dictionaries have no fixed order in the model.
- The resource-pool tree is given as a tree; building it from the flat list of pools is not modelled.
- `Placement.BestDatastore`: is one loop for the code's four over one host's datastores (by name, by health, by space, the maximum).
- A host in the port-group rollout is its name; the description of the switch lookup (`get_vswitches` takes a union although its comment says "on all hosts") is the flag whether the switch is valid.
- A stop between the platform call and the first saved property, in disk creation and in attaching a controller: the code does not protect against it, and only the port-group rollout does.
- Relationship operations, where the wrapper resumes the saved tasks of two instances instead of one.
- A task that is no longer listed clears only the task id, not the resource key: `AsyncTask.WaitLeaves` says so by its condition, and nothing more is proved about the key that stays.
- `DiskNames.NewDiskName`: excludes line breaks in the file names of disks, and takes only ASCII white space for white space, since the patterns treat the rest in their own way.
- Two storages created at the same time on one machine: the other one is an outsider in `DiskCreation`.
- `Nics.Server.Update`: takes the networks asked for as given, without those from relationships and without renaming by `from_relationship`; the new cards are an input, one for each addition; the records' flags for distributed and NSX-T networks are not modelled.
- The other parts of `update` and `check_drift` (size, disk, extra configuration, the expected configuration).
- `Snapshots.Machine.BackupServer`: takes one backup and its later success as one step; that the wait of a retry finds the task is in `AsyncTask`.
- The current snapshot: the platform may put a new one anywhere in `Snapshots`.
- The texts of error messages, and in `NetworkOrder` what an aborted check leaves in the dictionaries.
