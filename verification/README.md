# KubeAir node managers: a verified model

This project models the node-local state of the KubeAir kubelet and proves what that state
means over whole runs: the device plugin manager's reserve / call / commit-or-roll-back
protocol, the rotating container log, the CPU manager and its cpuset text format, pod
admission accounting, image garbage collection with its driving loop, the pod sources and the
dispatcher that fold events into the desired set, quantity texts, eviction ranking with its
cool-down and the two pressure evaluators, and the image puller's backoff.

Each component has three layers. Pure step functions say what one locked section, one call or
one loop turn does to the state. Classes and methods with loops have the source's own imperative
form and are proved equal to those functions, with hash maps walked in an arbitrary order; rows
of one-line methods that begin with "link:" only tie the object to the step the theorems are about.
Lemmas then state the property over every run, and where a property of the code needs a
hypothesis, a lemma shows what happens without it or that the hypothesis is exact.

Conventions. Clock readings are inputs, required only to be monotone where the source relies on
it. u64 and u32 additions wrap and the saturating operations saturate (the release profile sets
no overflow checks). f64 values are reals; the f64 text parser is a parameter. Library sorts are
modelled by an insertion sort whose contract is all the proofs use.

What the code does where its comments say otherwise, or say nothing:

- `rotate` that cannot open its next file leaves no open file; until the next rotation a write
  that fits returns Ok and stores nothing (log_manager lines 177-182). `LogManager.OkWriteIsStoredIff`
  gives the exact condition, `LogManager.SilentDropLosesALine` a run that loses a line in the middle.
- A crash between removing the oldest file and creating the next leaves the index where it was
  with that file gone (`LogManager.CrashForgetsTheIndex`); `LogManager.LinesStayReadable` says
  exactly which steps take a file away.
- Two containers share an allocation key when a colon moves from one name to the other, and the
  second reservation then overwrites the first (`DeviceProtocol.CollidingNamesUncover`);
  `DeviceProtocol.StepKeepsTablesIff` gives the exact condition.
- An allocation in flight while its pod is deallocated can commit afterwards; its devices then
  stay reserved until the pod is deallocated once more (`DeviceProtocol.LateCommitLeaks`).
- `PodManager::upsert` does not insert a new pod that carries host aliases and is equivalent to a
  desired pod, a manifest whose uid changes in place is never removed under its old uid, and a
  manifest that moves to another path is removed after it was added. So the desired pods are not
  always the known static pods; `FileSource.ReplayGivesKnown` says for which manifests they are.
- The static-pod source treats an unreadable directory like an empty one and removes every pod
  (`FileSource.UnreadableForgetsAll`, `FileSource.UnreadableEmptiesDesired`), while it skips an
  absent one; `FileSource.ForgottenIff` says exactly when a path is forgotten.
- `deallocate_pod` takes its two locks one after the other, so it is two steps here, and other
  sections may run in between.
- The eviction header says Guaranteed pods are evicted for memory only; the code ranks every pod for
  disk (`EvictionOrder.GuaranteedEvictedForDisk`), and `Eviction.GuaranteedDiskPickIff` says exactly
  when a disk pick takes one.
- The same header ranks pods by memory use above the request and lists only Burstable pods over
  theirs; the code compares plain use (`EvictionOrder.PlainUsageDecides`). The two orders agree
  exactly when pods of one class request the same (`EvictionOrder.RankingIsDocumentedIff`), and a
  Burstable pod within its request can be picked whenever there is one
  (`EvictionOrder.WithinRequestPickedIff`). A pod's request is the total that admission counts.
- Image GC says images of desired pods are never collected; an image that the second listing of
  the tick omits and no earlier tick left pinned can be (`ImageGc.ReferencedEligibleIff`, and two
  ticks that lead there in `ImageGc.OmittedImageIsNotSpared`).
- The two pressure evaluators read some threshold texts differently: suffixes other than Ki, Mi and
  Gi, products past 2^64 and padded texts (`Pressure.TextsAgreeIff`, `Pressure.PaddedTextsAgreeIff`).
- Pod totals are u64 sums that wrap, so a pod whose requests reach 2^64 can pass the CPU check
  (`Admission.UnfitPodSlipsThrough`); an admitted pod's real needs stay within the node exactly
  when its own totals fit (`Admission.AdmittedStaysWithinIff`), which runs assume.

## Model

| member | source | states |
|---|---|---|
| `DeviceManager.AllocationKeyCollision` | crates/kubelet-adapters/src/device_manager/mod.rs:108-110 | two different owners share an allocation key exactly when a colon-separated piece moves from one name to the other |
| `DeviceManager.AllocationKeyInjective` | crates/kubelet-adapters/src/device_manager/mod.rs:108-110 | with colon-free container names the key determines pod and container |
| `DeviceManager.FreeIds` | crates/kubelet-adapters/src/device_manager/mod.rs:209-222 | the free ids are exactly the healthy listed devices nobody has reserved |
| `DeviceManager.FreeIdsDistinct` | crates/kubelet-adapters/src/device_manager/mod.rs:209-228 | distinct device ids give distinct free ids |
| `DeviceManager.FreeIdsRetain` | crates/kubelet-adapters/src/device_manager/mod.rs:196-228 | reserving ids removes exactly those ids from the free list and keeps its order |
| `DeviceManager.Retain` | crates/kubelet-adapters/src/device_manager/mod.rs:543-543 | what is retained is what was reserved and is not released |
| `DeviceManager.ReleaseOne` | crates/kubelet-adapters/src/device_manager/mod.rs:537-549 | one iteration of the release loops extends an order-free description of the result by one record |
| `DeviceManager.Manager.RegisterPlugin` | crates/kubelet-adapters/src/device_manager/mod.rs:372-376 | link: installs a fresh endpoint with an empty table and touches nothing else |
| `DeviceManager.Manager.UpdateDevices` | crates/kubelet-adapters/src/device_manager/mod.rs:437-447 | replaces the device list of a registered resource by the one announced, keeps its table, and ignores an unregistered one |
| `DeviceManager.Manager.AllocateBegin` | crates/kubelet-adapters/src/device_manager/mod.rs:463-481 | succeeds exactly when the resource is registered with enough free devices, and then writes exactly the reserved ids under the caller's key |
| `DeviceManager.Manager.AllocateFail` | crates/kubelet-adapters/src/device_manager/mod.rs:495-501 | link: removes the caller's entry and nothing else |
| `DeviceManager.Manager.AllocateCommit` | crates/kubelet-adapters/src/device_manager/mod.rs:505-513 | link: appends the ids to the pod's record for the container and resource |
| `DeviceManager.Manager.TakePodRecord` | crates/kubelet-adapters/src/device_manager/mod.rs:533-534 | link: hands out the pod's whole record and leaves the table without it |
| `DeviceManager.Manager.ReleaseRecord` | crates/kubelet-adapters/src/device_manager/mod.rs:536-549 | for every iteration order of both hash maps, releases exactly the recorded ids |
| `DeviceProtocol.StepKeepsInv` | crates/kubelet-adapters/src/device_manager/mod.rs:453-551 | every step the table allows keeps the endpoint tables exact, unshared and free of orphans, with one live claim per entry |
| `DeviceProtocol.StepKeepsInvIffAllowed` | crates/kubelet-adapters/src/device_manager/mod.rs:372-551 | from a good state a step leads to a good one if and only if it neither reserves under a key the table has nor registers a resource whose table has entries |
| `DeviceProtocol.StepKeepsTablesIff` | crates/kubelet-adapters/src/device_manager/mod.rs:372-551 | the tables themselves stay exact (every live claim with its own ids, nothing else, no shared device) if and only if the step discards or overwrites no entry, or overwrites an empty entry with an empty one |
| `DeviceProtocol.AllowedIffSlotAllowed` | crates/kubelet-adapters/src/device_manager/mod.rs:108-110 | with colon-free container names the table allows a step exactly when the container has no live claim on the resource, or nobody holds the re-registered resource |
| `DeviceProtocol.SlotGuardedIsGuarded` | crates/kubelet-adapters/src/device_manager/mod.rs:453-551 | callers with colon-free container names and one allocation per live slot satisfy the hypotheses of every run theorem here |
| `DeviceProtocol.DevicesAreExclusive` | crates/kubelet-adapters/src/device_manager/mod.rs:453-551 | in every interleaving no device is held by two containers and each table entry is exactly one live claim |
| `DeviceProtocol.HeldDeviceIsNotHandedOut` | crates/kubelet-adapters/src/device_manager/mod.rs:437-481 | a held device is not handed out again even if it left the device list and came back |
| `DeviceProtocol.RollbackIsExact` | crates/kubelet-adapters/src/device_manager/mod.rs:495-501 | a failed RPC ends exactly its own claim and frees exactly its own ids |
| `DeviceProtocol.DeallocationIsExact` | crates/kubelet-adapters/src/device_manager/mod.rs:532-551 | deallocating a pod ends exactly its recorded claims and frees exactly their ids |
| `DeviceProtocol.ReservationTakesPrefix` | crates/kubelet-adapters/src/device_manager/mod.rs:196-228 | a reservation takes the first free devices, leaves the rest of the free list as it was, and lowers the available count by the number asked for |
| `DeviceProtocol.ClaimPersists` | crates/kubelet-adapters/src/device_manager/mod.rs:463-551 | whatever other callers do, a claim keeps its ids until its own call fails or the release that took its record finishes |
| `DeviceProtocol.ClaimEndsIff` | crates/kubelet-adapters/src/device_manager/mod.rs:463-551 | a step ends a live claim if and only if it is that claim's own failure or finishes the release of a record that holds it |
| `DeviceProtocol.LateCommitLeaks` | crates/kubelet-adapters/src/device_manager/mod.rs:505-551 | once a pod is deallocated and everything under way for it has ended, it still holds devices if and only if a call that was in flight at the deallocation committed some |
| `DeviceProtocol.ReRegistrationUncovers` | crates/kubelet-adapters/src/device_manager/mod.rs:374-376 | re-registering a resource leaves every held device of it unprotected |
| `DeviceProtocol.SecondAllocationUncovers` | crates/kubelet-adapters/src/device_manager/mod.rs:479-480 | a second reservation under a live claim's key leaves every device of that claim unprotected |
| `DeviceProtocol.CollidingNamesUncover` | crates/kubelet-adapters/src/device_manager/mod.rs:108-110 | a reservation for container x:c of pod p leaves the devices of container c of pod p:x unprotected |
| `DeviceProtocol.UncoveredDeviceIsStolen` | crates/kubelet-adapters/src/device_manager/mod.rs:437-481 | an unprotected held device goes to a second container after one list update and one allocation |
| `DeviceLists.DeviceListIsLatest` | crates/kubelet-adapters/src/device_manager/mod.rs:372-447 | in every run a resource is registered exactly when it ever was, and its list is the one announced last, empty after a registration |
| `DeviceLists.ReservedIsAnnounced` | crates/kubelet-adapters/src/device_manager/mod.rs:209-228 | in every run reserved ids are healthy devices of the last announcement, and none before the first one |
| `DeviceLists.ReservableIff` | crates/kubelet-adapters/src/device_manager/mod.rs:463-481 | in every run a reservation succeeds if and only if the last announcement lists at least as many healthy devices that no live claim holds |
| `DeviceLists.FreeIdsConcat` | crates/kubelet-adapters/src/device_manager/mod.rs:209-228 | free ids keep the order of the list |
| `DeviceLists.CommitAddsToRecord` | crates/kubelet-adapters/src/device_manager/mod.rs:505-513 | a commit adds its ids to the record of its slot and takes nothing away, whatever was recorded |
| `DeviceLists.ReleaseTakesRecorded` | crates/kubelet-adapters/src/device_manager/mod.rs:536-549 | for any tables and any record, releasing takes exactly the recorded ids out of the entries of their keys |
| `LogManager.ContainerLogManager.constructor` | crates/kubelet-adapters/src/log_manager/mod.rs:140-165 | opening a directory continues in its newest file with that file's size |
| `LogManager.ContainerLogManager.FindCurrentIndex` | crates/kubelet-adapters/src/log_manager/mod.rs:231-244 | finds the highest index, 0 for an empty directory |
| `LogManager.ContainerLogManager.Rotate` | crates/kubelet-adapters/src/log_manager/mod.rs:186-215 | advances, removes the file that leaves the window, and creates the next file or reports failure |
| `LogManager.ContainerLogManager.Write` | crates/kubelet-adapters/src/log_manager/mod.rs:168-183 | rotates first when the line would not fit, appends when a file is open, fails exactly when a needed rotation failed |
| `LogManager.ContainerLogManager.LogFiles` | crates/kubelet-adapters/src/log_manager/mod.rs:223-229 | lists the existing files of the window, oldest first |
| `LogManager.ListedContents` | crates/kubelet-adapters/src/log_manager/mod.rs:223-229 | the listed files are the ones that exist in the window, and reading them in order gives the readable lines |
| `LogManager.StepKeepsInv` | crates/kubelet-adapters/src/log_manager/mod.rs:140-215 | every write, dropped or not, rotation, reopen and crash keeps window, size tracking, size limit, and the suffix property for the lines really stored |
| `LogManager.ReadableIsSuffix` | crates/kubelet-adapters/src/log_manager/mod.rs:140-244 | after any run what can be read is a suffix of what was stored, and that equals what was reported written if and only if no write was dropped silently; the tracked size is the real size, files respect the limit or hold one line, and at most max_files exist |
| `LogManager.StoredIsHistoryIff` | crates/kubelet-adapters/src/log_manager/mod.rs:168-183 | over every run the stored lines are the reported lines if and only if no write was dropped silently |
| `LogManager.TruncateIsHarmless` | crates/kubelet-adapters/src/log_manager/mod.rs:204-210 | the file a rotation truncates never exists |
| `LogManager.WriteAdvancesIff` | crates/kubelet-adapters/src/log_manager/mod.rs:168-183 | a write goes on to the next file if and only if the line does not fit behind what the open file holds |
| `LogManager.FilesAreFull` | crates/kubelet-adapters/src/log_manager/mod.rs:168-215 | over every run of writes and reopens whose files open, the first line of each next file would have made the one before it too large |
| `LogManager.LinesStayReadable` | crates/kubelet-adapters/src/log_manager/mod.rs:195-229 | the lines of a file stay listed and readable all along a run if and only if no rotation, and no crash after the removal, happens at index i + max_files - 1 |
| `LogManager.StepShowsIff` | crates/kubelet-adapters/src/log_manager/mod.rs:195-229 | one step takes a file's lines away if and only if it prunes that file |
| `LogManager.CrashForgetsTheIndex` | crates/kubelet-adapters/src/log_manager/mod.rs:191-210 | a crash after the removal leaves the index unchanged and the oldest file gone |
| `LogManager.OkWriteIsStoredIff` | crates/kubelet-adapters/src/log_manager/mod.rs:168-183 | a write that returns Ok adds its line at the end of what remains readable if and only if a file is open or the line forces a rotation; what remains is a suffix of what was readable |
| `LogManager.SilentDropLosesALine` | crates/kubelet-adapters/src/log_manager/mod.rs:173-215 | a concrete run with one failed open that loses a line between two readable ones |
| `Text.DecDigits` | crates/kubelet-adapters/src/cpu_manager/mod.rs:99-103 | printed numbers are non-empty digits with the printed value |
| `Text.SplitJoin` | crates/kubelet-adapters/src/cpu_manager/mod.rs:60-60 | splitting undoes joining when no part holds the separator |
| `Text.JoinSplit` | crates/kubelet-adapters/src/cpu_manager/mod.rs:60-60 | the parts of a split hold no separator and give the text when joined |
| `Text.TrimPadded` | crates/kubelet-adapters/src/cpu_manager/mod.rs:61-61 | trimming takes off all white space around a text and nothing of it |
| `Text.ParseUnsignedIff` | crates/kubelet-adapters/src/cpu_manager/mod.rs:66-77 | exactly the texts of digits, with or without a plus sign, are read, up to the bound |
| `CpuSet.Interval` | crates/kubelet-adapters/src/cpu_manager/mod.rs:72-74 | an inclusive range holds exactly the ids between its ends |
| `CpuSet.Ascending` | crates/kubelet-adapters/src/cpu_manager/mod.rs:91-95 | iteration lists each CPU once, in increasing order |
| `CpuSet.ToCpusetString` | crates/kubelet-adapters/src/cpu_manager/mod.rs:86-114 | the loop prints the collapsed ranges, and range_end + 1 stays within u32 |
| `CpuSet.Parse` | crates/kubelet-adapters/src/cpu_manager/mod.rs:58-83 | the loop returns the union of its parts or the first part's error |
| `CpuSet.ParseOne` | crates/kubelet-adapters/src/cpu_manager/mod.rs:61-80 | one part is empty, an inclusive range, or a single id, with its own error for each malformed piece |
| `CpuSet.CollapseIsMaximal` | crates/kubelet-adapters/src/cpu_manager/mod.rs:95-112 | the printed ranges cover exactly the set and no two could be merged |
| `CpuSet.PartShape` | crates/kubelet-adapters/src/cpu_manager/mod.rs:97-103 | a printed part holds a dash exactly when it stands for more than one CPU |
| `CpuSet.PaddedRangeReads` | crates/kubelet-adapters/src/cpu_manager/mod.rs:61-74 | a range reads as the ids between its ends, none when they are reversed, with white space around either |
| `CpuSet.PaddedIdReads` | crates/kubelet-adapters/src/cpu_manager/mod.rs:61-80 | an id reads as itself and a blank part as nothing |
| `CpuSet.PartErrors` | crates/kubelet-adapters/src/cpu_manager/mod.rs:65-80 | each malformed piece of a part has its own error, the start of a range first |
| `CpuSet.PartsReadIff` | crates/kubelet-adapters/src/cpu_manager/mod.rs:58-83 | a list reads exactly when every part does |
| `CpuSet.PartsRead` | crates/kubelet-adapters/src/cpu_manager/mod.rs:58-83 | a list gives the ids of its parts together |
| `CpuSet.PartsFail` | crates/kubelet-adapters/src/cpu_manager/mod.rs:58-83 | a list that does not read fails with the error of its first part that fails |
| `CpuSet.PrintParseRoundTrip` | crates/kubelet-adapters/src/cpu_manager/mod.rs:58-114 | parsing the printed text returns the same set, for every set of u32 ids |
| `CpuSet.MaximalIsUnique` | crates/kubelet-adapters/src/cpu_manager/mod.rs:86-114 | a set has only one maximal range list |
| `CpuSet.PrintIsNormalForm` | crates/kubelet-adapters/src/cpu_manager/mod.rs:58-114 | texts of one set print alike and of different sets differently, and the printed text is that of the only maximal range list |
| `CpuManager.Manager.Take` | crates/kubelet-adapters/src/cpu_manager/mod.rs:127-136 | takes the lowest CPUs one by one, or nothing when there are too few |
| `CpuManager.Manager.AssignCpus` | crates/kubelet-adapters/src/cpu_manager/mod.rs:229-284 | policy, repeat, exclusive, failure and shared branches with the state each leaves |
| `CpuManager.Manager.ReleaseCpus` | crates/kubelet-adapters/src/cpu_manager/mod.rs:287-299 | returns the assignment's CPUs to the pool |
| `CpuManager.LowestSize` | crates/kubelet-adapters/src/cpu_manager/mod.rs:127-136 | exactly the requested number is taken, and every CPU taken is below every CPU left |
| `CpuManager.CpusAreConserved` | crates/kubelet-adapters/src/cpu_manager/mod.rs:198-309 | in every run pool and assignments partition total minus reserved, the shared pool is available plus reserved, and with no assignment left the pool is the initial one |
| `CpuManager.AssignGrantsWhatWasAsked` | crates/kubelet-adapters/src/cpu_manager/mod.rs:247-271 | succeeds exactly when enough CPUs are available, grants the requested number, the lowest of the pool, failures change nothing, repeats return the same set, releasing undoes it |
| `CpuManager.OtherAnswers` | crates/kubelet-adapters/src/cpu_manager/mod.rs:229-284 | the none policy gives all CPUs, a repeat what the container has, any other request the CPUs that nobody is assigned; none of them changes the state |
| `CpuManager.AssignmentsWereGranted` | crates/kubelet-adapters/src/cpu_manager/mod.rs:229-299 | in every run whoever holds CPUs is a Guaranteed container that asked for that many whole CPUs and was not released since |
| `CpuManager.ReleaseAllRestores` | crates/kubelet-adapters/src/cpu_manager/mod.rs:287-299 | releasing every key in any order restores the initial state |
| `Admission.ResourceUsage.AddPodWithOverhead` | crates/kubelet-adapters/src/admission/mod.rs:54-78 | adds the wrapped totals of containers and init containers and makes the pod owner of exactly the host ports one of them asks for |
| `Admission.ResourceUsage.RemovePodWithOverhead` | crates/kubelet-adapters/src/admission/mod.rs:84-116 | subtracts the totals of containers and init containers, stopping at zero, and drops the host ports they ask for whoever owns them |
| `Admission.ResourceUsage.AddContainers` | crates/kubelet-adapters/src/admission/mod.rs:60-71 | iterated wrapping additions equal one wrapped sum, repeated ports are entered once |
| `Admission.ResourceUsage.RemoveContainers` | crates/kubelet-adapters/src/admission/mod.rs:90-103 | iterated saturating subtractions equal one, repeated ports are removed once |
| `Admission.PodPorts` | crates/kubelet-adapters/src/admission/mod.rs:64-70 | a pod's host ports are exactly those of some port of some container or init container, by number and protocol |
| `Admission.PodTotals` | crates/kubelet-adapters/src/admission/mod.rs:296-310 | a pod's totals are those of its containers and its init containers together |
| `PodTypes.RequestCounts` | crates/kubelet-adapters/src/admission/mod.rs:312-318 | a container adds its positive request to any total; a missing, zero or negative one adds nothing |
| `Admission.CpuOverheadReads` | crates/kubelet-adapters/src/admission/mod.rs:329-338 | CPU overhead texts are whole cores or millicores |
| `Admission.MemoryOverheadReads` | crates/kubelet-adapters/src/admission/mod.rs:340-364 | memory overhead texts scale by 1024 to the suffix's power and saturate |
| `Admission.PlainMemoryOverhead` | crates/kubelet-adapters/src/admission/mod.rs:340-364 | a plain memory overhead is bytes, and without a text there is none |
| `Admission.OverheadPadding` | crates/kubelet-adapters/src/admission/mod.rs:329-364 | white space around an overhead text does not matter |
| `Admission.BadCpuOverhead` | crates/kubelet-adapters/src/admission/mod.rs:329-338 | a CPU overhead that is no number counts for nothing |
| `Admission.BadMemoryOverhead` | crates/kubelet-adapters/src/admission/mod.rs:340-364 | a memory overhead that is no number counts for nothing |
| `Admission.AdmitIff` | crates/kubelet-adapters/src/admission/mod.rs:179-293 | a pod is admitted exactly when all eight checks hold, each said of containers, init containers, labels, taints, tolerations and claims directly and with sums that do not wrap |
| `Admission.VerdictNamesFirstFailure` | crates/kubelet-adapters/src/admission/mod.rs:186-293 | a rejection names the first check that fails, in the order of the source |
| `Admission.AdmitAddsExactly` | crates/kubelet-adapters/src/admission/mod.rs:194-224 | after admission no addition overflows and usage plus overhead stays within allocatable |
| `Admission.RemoveSubtractsExactly` | crates/kubelet-adapters/src/admission/mod.rs:89-115 | removing a live pod never saturates and frees exactly the ports the pod owns |
| `Admission.UsageIsExact` | crates/kubelet-adapters/src/admission/mod.rs:54-116 | in every run the counters are the exact sums over the containers and init containers of the live pods, within the node, and each host port asked for belongs to the one live pod that asks, and no other port is held |
| `Admission.UsageIsRecomputation` | crates/kubelet-adapters/src/admission/mod.rs:38-117 | the incremental usage equals a from-scratch recomputation over the live pods in any order |
| `Admission.UnfitPodSlipsThrough` | crates/kubelet-adapters/src/admission/mod.rs:195-208 | a pod whose requests add up to 2^64 wraps to nothing and is admitted on a node without CPU |
| `Admission.AdmittedStaysWithinIff` | crates/kubelet-adapters/src/admission/mod.rs:194-224 | an admitted pod's unwrapped needs stay within what the node can allocate if and only if its own totals fit a u64 |
| `Quantity.MillicoresRoundTrip` | crates/kubelet-adapters/src/kube_reporter/mod.rs:688-697 | for every i64 millicores come back unchanged if and only if the key is cpu or they are not whole cores; elsewhere whole cores come back as a count |
| `Quantity.BytesRoundTrip` | crates/kubelet-adapters/src/kube_reporter/mod.rs:698-711 | byte quantities keep their value, keep their unit exactly when 1024 divides it, and print to the same text again |
| `Quantity.PrintsLargestUnit` | crates/kubelet-adapters/src/kube_reporter/mod.rs:698-711 | byte quantities are printed in the largest of Gi, Mi, Ki and bytes that divides them |
| `Quantity.BytesUnderCpu` | crates/kubelet-adapters/src/kube_reporter/mod.rs:1432-1441 | under the key cpu a byte quantity comes back unchanged exactly when 1024 divides it |
| `Quantity.CountRoundTrip` | crates/kubelet-adapters/src/kube_reporter/mod.rs:1423-1441 | counts come back exactly under every key but cpu |
| `Quantity.ParseSuffixed` | crates/kubelet-adapters/src/kube_reporter/mod.rs:1373-1416 | each of the seven byte suffixes scales by its factor and saturates at the ends of i64 |
| `Quantity.CoresRead` | crates/kubelet-adapters/src/kube_reporter/mod.rs:1432-1441 | under the key cpu a plain number is whole cores, saturating at the ends of i64 |
| `Quantity.PaddingIsIgnored` | crates/kubelet-adapters/src/kube_reporter/mod.rs:1373-1380 | white space around a quantity does not matter |
| `ImageGc.ImageGcManager.TrackImage` | crates/kubelet-adapters/src/image_gc/mod.rs:81-88 | link: starts tracking an unknown image now and leaves a known one alone |
| `ImageGc.ImageGcManager.MarkInUse` | crates/kubelet-adapters/src/image_gc/mod.rs:91-97 | link: pins the id and stamps the image if it is tracked |
| `ImageGc.ImageGcManager.MarkNotInUse` | crates/kubelet-adapters/src/image_gc/mod.rs:100-105 | link: unpins the id and keeps the time of last use |
| `ImageGc.ImageGcManager.RemoveImage` | crates/kubelet-adapters/src/image_gc/mod.rs:108-111 | link: forgets the image and its pin |
| `ImageGc.ImageGcManager.Sync` | crates/kubelet-adapters/src/image_gc/mod.rs:114-122 | drops images no longer listed and tracks the listed ones |
| `ImageGc.ImageGcManager.GcCandidates` | crates/kubelet-adapters/src/image_gc/mod.rs:126-167 | the plan is the greedy prefix of some last-used ordering of exactly the eligible images |
| `ImageGc.SortByLastUsed` | crates/kubelet-adapters/src/image_gc/mod.rs:150-150 | orders the same ids, each once, oldest first |
| `ImageGc.LastUsedIsLatest` | crates/kubelet-adapters/src/image_gc/mod.rs:81-122 | along any run a tracked image's last use is no earlier than any call that marked it or began to track it |
| `ImageGc.LastUsedIsTouch` | crates/kubelet-adapters/src/image_gc/mod.rs:81-105 | a tracked image's last use is the time of a call that marked it or began to track it |
| `ImageGc.PinnedIff` | crates/kubelet-adapters/src/image_gc/mod.rs:91-111 | in every run an image is pinned exactly when it was marked in use and neither unmarked nor removed since |
| `ImageGc.TrackedIff` | crates/kubelet-adapters/src/image_gc/mod.rs:81-122 | in every run an image is tracked exactly when it was listed and neither removed nor left out of a listing since |
| `ImageGc.InUseIff` | crates/kubelet-adapters/src/image_gc/mod.rs:81-111 | in every run a tracked image says it is in use exactly when it was marked so while tracked and not unmarked since |
| `ImageGc.PlanIsShortestPrefix` | crates/kubelet-adapters/src/image_gc/mod.rs:126-167 | the plan brings use below the low target plus one byte and without its last image use would be at or above that, or it is every eligible image; nothing planned is newer than an eligible image left out |
| `ImageGc.PlanStartsIff` | crates/kubelet-adapters/src/image_gc/mod.rs:128-157 | a plan is made if and only if use is over the high mark, at least a byte over the low target, and some image is unpinned and older than min_age |
| `ImageGc.PlannedImageIsOld` | crates/kubelet-adapters/src/image_gc/mod.rs:141-147 | a planned image was not touched within min_age at any time of the run and is not pinned |
| `ImageGc.MarkAllPins` | crates/kubelet-app/src/lib.rs:1142-1150 | after the marking loop a listed image is pinned exactly when a desired pod names one of its tags or digests |
| `ImageGc.PlanSparesReferenced` | crates/kubelet-app/src/lib.rs:1121-1162 | no image the second listing shows and a desired pod references is planned |
| `ImageGc.OmittedImageIsNotSpared` | crates/kubelet-app/src/lib.rs:1138-1150 | two ticks from the empty manager after which the loop plans an image that a desired pod names |
| `ImageGc.ReferencedEligibleIff` | crates/kubelet-app/src/lib.rs:1138-1162 | a tracked old image that is referenced wherever it is listed is eligible if and only if the second listing omits it and it was not pinned before |
| `ImageGc.Iteration` | crates/kubelet-app/src/lib.rs:1107-1186 | one tick: the calls made before planning in each early exit, the plan exactly when both listings succeed and the disk size is known, and the removal of exactly the planned images that can be deleted |
| `ImageGc.GcLoop` | crates/kubelet-app/src/lib.rs:1103-1186 | over any number of ticks each plan is the plan for the state that all earlier calls and removals lead to, holds no image any of those calls touched within min_age, and no listed image a desired pod references |
| `PodManager.NodeSuffixIsEquivalent` | crates/kubelet-core/src/pod/manager.rs:259-275 | a node-suffixed name is equivalent to the plain one |
| `PodManager.EquivalentIff` | crates/kubelet-core/src/pod/manager.rs:66-70 | two pods are taken for one exactly when they share the namespace and the name or the name without the node's suffix |
| `PodManager.Manager.Upsert` | crates/kubelet-core/src/pod/manager.rs:58-160 | a known pod is stored keeping its aliases when it brings none; a new pod gives its aliases to some equivalent pod and is not stored, takes those of some equivalent pod when it brings none, and is stored as it is when there is no such pod |
| `PodManager.Manager.FindEquivalent` | crates/kubelet-core/src/pod/manager.rs:66-70 | finds an equivalent pod with another uid exactly when there is one |
| `PodManager.Manager.RemovePod` | crates/kubelet-core/src/pod/manager.rs:168-185 | link: takes exactly the uid out of the desired set |
| `PodManager.Manager.Dispatch` | crates/kubelet-app/src/lib.rs:470-483 | Remove removes, every other operation upserts |
| `PodManager.DesiredIff` | crates/kubelet-app/src/lib.rs:469-483 | for every stream a uid is desired exactly when a stored upsert of it was not followed by a Remove |
| `PodManager.RemovedStaysOut` | crates/kubelet-app/src/lib.rs:469-483 | a removed uid that is never upserted again is never desired again |
| `KubeSource.EventsAreObservations` | crates/kubelet-adapters/src/kube_reporter/mod.rs:922-1025 | each watch event sends what its pods, seen one at a time, would send |
| `KubeSource.RelistUpdates` | crates/kubelet-adapters/src/kube_reporter/mod.rs:865-877 | a relist sends a Reconcile for each convertible pod that is not being deleted |
| `KubeSource.AcceptedIff` | crates/kubelet-adapters/src/kube_reporter/mod.rs:1027-1055 | an observation upserts exactly when it is unmarked, named, not a mirror and has a spec, with its own name, namespace, node and aliases, as a Reconcile when listed and an Add when watched |
| `KubeSource.EmitFacts` | crates/kubelet-adapters/src/kube_reporter/mod.rs:922-1025 | updates carry the observed uid, and are Removes exactly for marked observations |
| `KubeSource.EmittedRemovesAreFinal` | crates/kubelet-adapters/src/kube_reporter/mod.rs:922-1025 | over every stream of observations no Remove of a uid is followed by an upsert of it if and only if the uid is never shown convertible again after it was shown going |
| `KubeSource.FinalMarksNeverRevive` | crates/kubelet-adapters/src/kube_reporter/mod.rs:922-1055 | an API server that never takes a deletion mark back meets that condition |
| `KubeSource.DeletionIsFinal` | crates/kubelet-adapters/src/kube_reporter/mod.rs:834-918 | over every run in which the uid is not revived, after its first Remove it is never upserted nor desired again |
| `KubeSource.MergedDeletionIsFinal` | crates/kubelet-app/src/lib.rs:464-483 | the same in the channel all sources share, for every interleaving, while no other source speaks about the uid |
| `KubeSource.StaleObservationRevives` | crates/kubelet-adapters/src/kube_reporter/mod.rs:867-876 | one stale relist entry brings a removed uid back |
| `FileSource.FilePodSource.ScanOnce` | crates/kubelet-adapters/src/file_config/mod.rs:515-629 | one turn: updates for parsed manifests in listing order, then Removes for vanished paths in some order; a known path is forgotten exactly when the directory is there and no entry is a manifest of it |
| `FileSource.FilePodSource.RemoveVanished` | crates/kubelet-adapters/src/file_config/mod.rs:566-629 | removes exactly the known paths that were not listed, each once |
| `FileSource.PathsFollowTheLanguage` | crates/kubelet-adapters/src/file_config/mod.rs:511-633 | each path's updates are Add (Reconcile or Update)* Remove cycles, the last one open exactly when the path is known |
| `FileSource.KnownAfterTurn` | crates/kubelet-adapters/src/file_config/mod.rs:522-629 | after a turn that was not skipped the known paths are exactly those with a manifest entry that parse now or were known before |
| `FileSource.ForgottenIff` | crates/kubelet-adapters/src/file_config/mod.rs:566-629 | a turn forgets a known path if and only if the directory exists and no entry is a manifest of that path, parsed or not |
| `FileSource.UnparsedIsLeftAlone` | crates/kubelet-adapters/src/file_config/mod.rs:533-561 | a turn that shows a path and cannot parse it leaves it as it was and sends nothing about it |
| `FileSource.OperationsFollowUids` | crates/kubelet-adapters/src/file_config/mod.rs:539-547 | in every run an update is Add, Reconcile or Update by the uid last sent for its path, and a Remove is of that uid |
| `FileSource.UnreadableForgetsAll` | crates/kubelet-adapters/src/file_config/mod.rs:524-629 | a directory that cannot be read is treated exactly like an empty one: every pod is forgotten |
| `FileSource.ReplayGivesKnown` | crates/kubelet-adapters/src/file_config/mod.rs:511-633 | for every catalog of manifests: on all runs over it the desired uids are the known uids after every scan if and only if each path keeps one uid, different paths have different uids, and no manifest with aliases has a name equivalent to another path's |
| `FileSource.ReplayIsAmongKnown` | crates/kubelet-adapters/src/file_config/mod.rs:511-633 | with stable distinct uids the desired uids are always among the known ones |
| `FileSource.UnreadableEmptiesDesired` | crates/kubelet-adapters/src/file_config/mod.rs:517-629 | with stable distinct uids a scan that cannot read the directory empties the desired set, one that finds no directory leaves it unchanged |
| `FileSource.ScanEmptiesDesiredIff` | crates/kubelet-adapters/src/file_config/mod.rs:517-629 | on catalogs that do not clash a scan empties the desired set if and only if no listed path parses or was known before |
| `FileSource.ChangedUidStaysDesired` | crates/kubelet-adapters/src/file_config/mod.rs:536-553 | a manifest whose uid changes in place leaves the old uid desired and no longer known |
| `FileSource.SharedUidIsLost` | crates/kubelet-adapters/src/file_config/mod.rs:566-629 | a manifest moved to another path between two scans is known and no longer desired |
| `FileSource.ReplayGivesKnownWithoutAliases` | crates/kubelet-adapters/src/file_config/mod.rs:511-633 | without host aliases replaying the stream gives exactly the known uids after every scan |
| `FileSource.MergedPodIsKnownButNotDesired` | crates/kubelet-core/src/pod/manager.rs:82-106 | of two manifests with equivalent names, the second found with aliases, both are known and one is desired |
| `FileSource.NamesakesClash` | crates/kubelet-core/src/pod/manager.rs:82-106 | a catalog with stable distinct uids on which the desired uids are not always the known ones |
| `Eviction.QosIff` | crates/kubelet-core/src/qos/mod.rs:46-83 | Guaranteed exactly when every container's CPU and memory requests equal its limits, BestEffort exactly when nothing is set |
| `Eviction.Rank` | crates/kubelet-adapters/src/eviction/manager.rs:85-135 | ranks exactly the considered pods by class, then by falling usage |
| `Eviction.EvictionManager.PickCandidate` | crates/kubelet-adapters/src/eviction/manager.rs:213-248 | picks and stamps the first candidate outside its cool-down, with the class's grace period |
| `Eviction.EvictionManager.Evaluate` | crates/kubelet-adapters/src/eviction/manager.rs:171-193 | one pick per resource under pressure, memory first, each seeing the stamps before it |
| `Eviction.PickIsRankMinimal` | crates/kubelet-adapters/src/eviction/manager.rs:85-145 | the picked pod ranks no later than any considered pod outside its cool-down |
| `Eviction.DiskPickUsesMost` | crates/kubelet-adapters/src/eviction/manager.rs:113-135 | a disk pick takes a pod of which no pod of its class outside its cool-down uses more disk |
| `Eviction.MemoryPickUsesMost` | crates/kubelet-adapters/src/eviction/manager.rs:85-110 | a memory pick takes no pod that never restarts, and none of the others of its class outside its cool-down uses more memory |
| `Eviction.GracePeriods` | crates/kubelet-adapters/src/eviction/manager.rs:225-248 | the grace period is the override, or 30, 10 and 0 seconds by class |
| `Eviction.SkippedWasEvicted` | crates/kubelet-adapters/src/eviction/manager.rs:213-224 | in every run a candidate a pick passes over was evicted less than 30 seconds before |
| `Eviction.PicksClassIff` | crates/kubelet-adapters/src/eviction/manager.rs:99-145 | for either reason a pick takes a pod of a class if and only if one of the class is outside its cool-down at its own reading and all of lower classes are inside theirs |
| `Eviction.GuaranteedDiskPickIff` | crates/kubelet-adapters/src/eviction/manager.rs:113-135 | in every run the disk pick of a round takes a Guaranteed pod if and only if the disk is under pressure and, of all the round's pods, only Guaranteed ones are outside their cool-downs |
| `EvictionOrder.GuaranteedForDiskIff` | crates/kubelet-adapters/src/eviction/manager.rs:113-135 | a disk pick can take a Guaranteed pod if and only if there is one |
| `EvictionOrder.GuaranteedEvictedForDisk` | crates/kubelet-adapters/src/eviction/manager.rs:113-135 | a run of one round that evicts a Guaranteed pod for disk |
| `EvictionOrder.OrdersAgreeIff` | crates/kubelet-adapters/src/eviction/manager.rs:99-107 | for two pods plain usage and usage above request order alike, on every usage, if and only if their classes differ or their memory requests are equal |
| `EvictionOrder.RankingIsDocumentedIff` | crates/kubelet-adapters/src/eviction/manager.rs:83-110 | every memory ranking follows usage above request, for every usage, if and only if the pods of each class that may be evicted all request the same |
| `EvictionOrder.PlainUsageDecides` | crates/kubelet-adapters/src/eviction/manager.rs:99-107 | of two Burstable pods the one 10 bytes above its request is picked before the one 40 above |
| `EvictionOrder.WithinRequestPickedIff` | crates/kubelet-adapters/src/eviction/manager.rs:85-110 | a memory pick can take a Burstable pod within its request if and only if there is one that may be evicted |
| `Eviction.Pick` | crates/kubelet-adapters/src/eviction/manager.rs:218-224 | the first candidate outside its cool-down at its own reading; none exactly when all are cooling |
| `Eviction.EvictionLoop` | crates/kubelet-app/src/lib.rs:1055-1077 | over any number of evaluations the evicted pods are those of two picks per round from that round's pods, ranked under pressure and nothing otherwise; every pick is rank-minimal given the evictions before it, takes a class exactly when that class is next, and evictions of one pod are the reclaim period apart |
| `Eviction.EvictionsAreSpaced` | crates/kubelet-adapters/src/eviction/manager.rs:213-248 | in every run two evictions of one pod are at least the reclaim period apart |
| `Pressure.EvictionEvaluator.constructor` | crates/kubelet-adapters/src/eviction/mod.rs:124-137 | keeps exactly the thresholds that parse, in some order |
| `Pressure.EvictionEvaluator.Evaluate` | crates/kubelet-adapters/src/eviction/mod.rs:140-174 | each flag is set exactly when some threshold on its resource is exceeded |
| `Pressure.EvaluatePressure` | crates/kubelet-adapters/src/eviction/pressure.rs:179-224 | each flag is set exactly when a signal of its kind is exceeded, for every iteration order |
| `Pressure.TextsAgreeIff` | crates/kubelet-adapters/src/eviction/pressure.rs:144-169 | for percentages, plain bytes and suffixed integers the evaluators agree on all signals if and only if no suffix but Ki, Mi, Gi follows a non-zero number and the product fits a u64 |
| `Pressure.EvictionReadsSuffix` | crates/kubelet-adapters/src/eviction/mod.rs:74-96 | the eviction side scales every suffix of its table and saturates at the largest u64 |
| `Pressure.ConditionsReadSuffix` | crates/kubelet-adapters/src/eviction/pressure.rs:158-169 | the node-condition side scales Ki, Mi, Gi, wrapping at 2^64, and reads any other suffix as zero |
| `Pressure.PercentReads` | crates/kubelet-adapters/src/eviction/pressure.rs:144-157 | a percentage stands for that part of the capacity in whole units, at most the largest u64 |
| `Pressure.SignalsReadPercent` | crates/kubelet-adapters/src/eviction/pressure.rs:187-206 | each signal is compared with its own capacity: memory plus disk, disk, a million inodes, the image disk |
| `Pressure.SignalsReadPlain` | crates/kubelet-adapters/src/eviction/pressure.rs:187-208 | a plain number is compared with the signal itself, and process ids fall back to 1000 |
| `Pressure.EvictionIgnoresPadding` | crates/kubelet-adapters/src/eviction/mod.rs:46-60 | the eviction side takes white space off a text |
| `Pressure.PaddedTextsAgreeIff` | crates/kubelet-adapters/src/eviction/pressure.rs:144-169 | a padded text that is not a percentage is read alike exactly when its threshold can never be exceeded |
| `Pressure.DocumentedTextsAreCommon` | crates/kubelet-adapters/src/eviction/mod.rs:46-96 | maps written in the documented forms give both evaluators texts they agree on |
| `Pressure.EvaluateBoth` | crates/kubelet-app/src/lib.rs:1058-1066 | both evaluators' memory, disk and pid flags from the texts, whatever the iteration orders, and their equality on texts they agree on |
| `Pressure.SamePressureIff` | crates/kubelet-app/src/lib.rs:1058-1066 | on maps of well-formed texts both evaluators report the same memory and disk pressure for all signals if and only if no suffix but Ki, Mi, Gi follows a non-zero number and nothing overflows |
| `ImagePuller.Puller.PullWithBackoff` | crates/kubelet-adapters/src/image_puller/mod.rs:128-167 | link: blocked exactly before next_retry, else records the outcome for this image only |
| `ImagePuller.Puller.ClearBackoff` | crates/kubelet-adapters/src/image_puller/mod.rs:170-172 | link: forgets exactly this image's backoff |
| `ImagePuller.BackoffDoubles` | crates/kubelet-adapters/src/image_puller/mod.rs:40-74 | after n failures in a row the stored backoff is min(10 * 2^n, 300) seconds, next_retry follows from the last failure, and every earlier pair of failures was that far apart |
| `ImagePuller.BlockedIff` | crates/kubelet-adapters/src/image_puller/mod.rs:128-150 | in every sequential run a pull is refused exactly while fewer than min(10 * 2^(n-1), 300) seconds have passed since the last of n failures in a row |
| `ImagePuller.FailuresAreSpread` | crates/kubelet-adapters/src/image_puller/mod.rs:128-167 | n failures in a row, n at least 6, span at least 310 + 300 (n - 6) seconds |

## Left out

- gRPC, HTTP, TLS, WebSocket and certificate code: an Allocate RPC is a step that succeeds or fails.
- The device plugin registry checkpoint and socket scanning: file input and output around `register_plugin`.
- JSON encoding of log lines, and a write that stops in the middle of a line: a line is appended whole or not at all.
- A `new` whose directory or file does not open: it creates no manager.
- A failed `remove_file` during rotation, which the source ignores: removal succeeds here.
- LogManager.ReadableIsSuffix: assumes fewer than 2^32 rotations, because the u32 index then wraps and a later reopen continues in old files; byte counts are unbounded.
- LogManager.ContainerLogManager.Write: requires that an open file is in the directory, which every method keeps; a file removed by somebody else is not modelled.
- ImageGc.ImageGcManager.GcCandidates: sizes are summed without u64 wrap-around, which would need image sizes near 2^64; f64 rounding of the thresholds is abstracted by reals.
- ImageGc.GcLoop: a finite number of ticks stands for the endless loop.
- Pressure.TextsAgreeIff: infinite and not-a-number percentages are outside the real-valued parser.
- Soft eviction thresholds: the source parses them and never reads them again.
- Eviction.EvictionManager.PickCandidate: the message text and the placeholder pod reference of a decision are not modelled.
- Shared CPU pools handed to containers are not updated later, so nothing is claimed about them after another assign; CPU checkpoints are not modelled.
- FileSource.FilePodSource.ScanOnce: manifests are already parsed or failed; the name and namespace of a synthesised Remove are not kept, since only its uid is used.
- KubeSource.DeletionIsFinal: the loop's timing, reconnects and channel closing are left out; the run is the sequence of events and relists it handles.
- PodManager.Manager.RemovePod: the cache of recently removed pods and the forwarding to the runtime are not modelled.
- ImagePuller.BackoffDoubles: the u32 failure counter is unbounded, and pulls of one image that overlap are excluded.
- Terminated-pod collection, leases, cgroups, CSI, CNI, probes and the remaining managers would only add easier members.
