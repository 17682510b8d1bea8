# find_dupes: a verified model of the duplicate-file grouping

The duplicate finder walks a directory tree and groups its regular files by
content. There are two working variants, and this project models both of them:

- **merge maps** (`find_dupes_merge_maps/main.go`). Workers bucket file
  descriptors by size in private maps. A reducer then concatenates those maps
  key by key. Buckets with fewer than two entries are dropped, and every
  surviving descriptor whose MD5 digest succeeds is appended under that digest.
- **shared map** (`shared_map/find_dupes_shared_map.go`). Workers hash every
  queued file. Each worker appends each successful descriptor, under a mutex,
  to one map keyed by digest that all workers share.

Both variants print the groups with `printDupes`, and both use the same walk
callback to decide which paths are queued.

The operating system is an oracle, `FileSystem.Env`:

- `os.Stat` is modelled per path.
- `os.Open` gives a scripted handle: the results of its successive `Read`
  calls, then what `Stat` on the open file returns.
- MD5 is an uninterpreted function from bytes to a hex string.

Concurrency is replaced by sequences:

- `filepath.Walk` becomes the sequence of entries it visits (`Walk.Visit`).
- Each worker's dequeued paths are one list per worker.
- In the shared variant, a schedule says whose iteration runs next.

Go map iteration is modelled by choosing any remaining key. So every
property below holds for every iteration order, every split of the queue
among the workers, and every interleaving.

Files:

- `results.dfy`: `Option` and `Result`.
- `multimap.dfy`: maps of lists; `Flat`, the multiset of all their entries.
- `filesystem.dfy`: the oracles and the chunked read-and-hash loop.
- `walk.dfy`: the walk callback.
- `report.dfy`: `printDupes`.
- `merge_maps.dfy` and `shared_map.dfy`: the two pipelines.

Excluded names are not pruned. For an excluded name the callback returns
`nil`, not `filepath.SkipDir` (find_dupes_merge_maps/main.go:92-94 and
shared_map/find_dupes_shared_map.go:92-94). So `filepath.Walk` still visits
the contents of a directory with such a name. The model takes the visited
entries as given, and the callback keeps only each excluded entry itself off
the queue.

## Model

| member | source | states |
|---|---|---|
| Walk.WalkFn | find_dupes_merge_maps/main.go:86-99 | A path is queued exactly when its entry has no access error, its base name is not `.`, `..` or `.DS_Store`, and it is a regular file. The callback always returns nil. The shared-map callback (shared_map/find_dupes_shared_map.go:86-99) is the same code. |
| Walk.TaskQueueHas | find_dupes_merge_maps/main.go:86-104 | A path is on the task queue exactly when the walk visited it as an admitted entry. |
| FileSystem.CleanReads | find_dupes_merge_maps/main.go:45-53 | The number of reads before the first one that reports an error: all earlier reads are clean, and that read reports an error. |
| FileSystem.ReadToEOFCharacterized | find_dupes_merge_maps/main.go:45-55 | The read loop succeeds exactly when the first erroring read reports EOF, or none does. It then yields the bytes of all earlier reads. Otherwise it fails with that first error. |
| FileSystem.HashStream | find_dupes_merge_maps/main.go:44-59 | The chunk loop returns the digest of every byte read up to EOF. On a non-EOF read error it returns `""` and that error, never a partial digest. The same loop is at shared_map/find_dupes_shared_map.go:34-47. |
| MultiMap.AppendAt | find_dupes_merge_maps/main.go:71 | `m[k] = append(m[k], vs...)`: the list under `k` grows by `vs`, every other list is unchanged, and `k` becomes a key. |
| MultiMap.FlatAppendAt | find_dupes_merge_maps/main.go:111 | An append adds exactly the appended entries to the map's contents: none is lost and none is duplicated. |
| MultiMap.FlatKeyed | find_dupes_merge_maps/main.go:71 | If every entry is filed under the key derived from it, an entry's count in the whole map is its count under its own key. |
| MergeMaps.GenerateFileDesc | find_dupes_merge_maps/main.go:25-36 | If the stat succeeds, the descriptor carries the path, mtime and size from the stat, and there is no error. If the stat fails, the result is the zero descriptor plus the stat error. |
| MergeMaps.DescribedCount | find_dupes_merge_maps/main.go:65-70 | A descriptor occurs among a worker's descriptors as often as its path was dequeued, if probing that path yields it. Otherwise it never occurs. A failed probe contributes nothing. |
| MergeMaps.OfSizeCount | find_dupes_merge_maps/main.go:71 | The bucket of size `s` holds every descriptor of size `s`, as often as it occurs, and nothing else. |
| MergeMaps.ProcessFiles | find_dupes_merge_maps/main.go:62-75 | After the worker loop, the bucket of size `s` is exactly the successfully probed descriptors of size `s`, in dequeue order. No bucket is empty. |
| MergeMaps.MergeWorker | find_dupes_merge_maps/main.go:109-112 | Merging one worker's map in any key order: every key's list grows by the worker's list, the keys are the union, and the contents are the sum. |
| MergeMaps.MergeStep | find_dupes_merge_maps/main.go:110-111 | Appending the worker's list under one more key keeps the merge invariant: lists, keys and contents. |
| MergeMaps.RunWorkers | find_dupes_merge_maps/main.go:81-83 | One map per worker, in worker order. Worker `w`'s map files exactly the probed descriptors of its own dequeued paths by size, in dequeue order. |
| MergeMaps.Reduce | find_dupes_merge_maps/main.go:107-113 | After the reduce loop, each key's list is the concatenation of the workers' lists in received order. The keys are all the workers' keys. The contents are the sum of the workers' contents, so the entry count is the sum of theirs. |
| MergeMaps.ReducedBuckets | find_dupes_merge_maps/main.go:107-113 | The reduced buckets are the buckets of all workers' descriptors together, in worker order. |
| MergeMaps.BucketSizeInvariant | find_dupes_merge_maps/main.go:107-120 | A bucket's size depends only on which paths were queued, not on how they were split among workers or in what order. |
| MergeMaps.GetMD5 | find_dupes_merge_maps/main.go:38-60 | If the open fails, or a read fails with a non-EOF error, the result is `""` and that error. Otherwise it is the digest of all bytes read up to EOF, with no error. |
| MergeMaps.HashedIntoAppend | find_dupes_merge_maps/main.go:127 | Appending a descriptor under its digest adds exactly that one occurrence. |
| MergeMaps.HashedIntoSkip | find_dupes_merge_maps/main.go:122-125 | A descriptor whose digest fails is omitted, and the map is unchanged. |
| MergeMaps.HashBucket | find_dupes_merge_maps/main.go:121-129 | Over one bucket, each descriptor ends up under its digest if the digest succeeds and nowhere otherwise. A failure skips only that descriptor, and its siblings are still processed. `getMD5` is called once per descriptor, in bucket order (`calls`). |
| MergeMaps.CandidatesStep | find_dupes_merge_maps/main.go:117-120 | Visiting one more bucket adds its entries to the surviving ones exactly when it has two or more entries. |
| MergeMaps.HashCandidates | find_dupes_merge_maps/main.go:115-130 | `getMD5` is called on exactly the descriptors of buckets with two or more entries, each once. Each such descriptor sits under its digest as often as it occurs in them. No list is empty. |
| MergeMaps.CandidateCount | find_dupes_merge_maps/main.go:117-120 | A descriptor survives pruning as often as its path is queued, if probing yields it and its size bucket has two or more entries. Otherwise it never survives. |
| MergeMaps.FindDupes | find_dupes_merge_maps/main.go:77-133 | A descriptor is listed under `h` as often as its path was queued when three things hold: probing yields it, its size bucket has at least two entries, and `getMD5` returns `h`. Otherwise it is not listed. This holds for every split and order. `getMD5` is called on exactly the surviving descriptors, and no list is empty. |
| MergeMaps.MergeSound | find_dupes_merge_maps/main.go:86-133 | A listed descriptor has these properties: its probe yields it, its digest is the key it is listed under, its size bucket has at least two entries, and the walk visited it as an admitted entry. |
| MergeMaps.MergeComplete | find_dupes_merge_maps/main.go:107-130 | Two queued paths with the same size and the same digest `h` are both listed under `h`. |
| MergeMaps.SameSizeDifferentContentClaimsDupes | find_dupes_merge_maps/main.go:135-152 | For two queued files of equal size but different digests, `printDupes` as written prints the header and no group. |
| MergeMaps.SameSizeDifferentContentNoDupes | find_dupes_merge_maps/main.go:135-152 | For the same tree, the corrected report prints "No dupes found.". |
| MergeMaps.FindAndReport | find_dupes_merge_maps/main.go:135-153 | `printDupes` with the corrected message: the outcome of `findDupes` and its intended report. |
| Report.CollectGroups | find_dupes_merge_maps/main.go:144-152 | In any key order, the printed groups are whole lists with two or more entries. Every such list is printed, and no digest is printed twice. |
| Report.PrintDupes | find_dupes_merge_maps/main.go:135-153 | As written: "No dupes found." exactly when the map is empty. Otherwise the header and exactly the groups of two or more. The shared variant's copy is at shared_map/find_dupes_shared_map.go:113-131. |
| Report.HeaderWithoutGroups | find_dupes_merge_maps/main.go:137-152 | For a non-empty map whose lists all have fewer than two entries, the as-written output is the header with no group. |
| Report.PrintDupesIntended | find_dupes_merge_maps/main.go:137-152 | Corrected: "No dupes found." exactly when no list has two or more entries. Otherwise every such group is printed. |
| Report.IntendedHeaderHasGroups | find_dupes_merge_maps/main.go:142-152 | The corrected report never prints the header without a group. |
| SharedMap.Describe | shared_map/find_dupes_shared_map.go:26-58 | Fails exactly when the open fails or a read fails with a non-EOF error, and then carries that error. Otherwise the descriptor has the path, the digest of the bytes read to EOF, and the open file's mtime, or 0 if that stat fails. |
| SharedMap.GenerateFileDesc | shared_map/find_dupes_shared_map.go:26-58 | Open, chunk loop and fstat give `Describe`'s descriptor. On failure they give the zero descriptor and the error, never a partial digest. |
| SharedMap.StatFailureKeepsHash | shared_map/find_dupes_shared_map.go:49-57 | A stat failure after hashing does not fail the call: mtime is 0 and the digest is kept. |
| SharedMap.HashIndex.constructor | shared_map/find_dupes_shared_map.go:79 | The shared map starts empty. |
| SharedMap.HashIndex.Add | shared_map/find_dupes_shared_map.go:68-70 | The locked append: one descriptor is added under its digest, and every other list is unchanged. |
| SharedMap.ProcessFile | shared_map/find_dupes_shared_map.go:63-70 | One worker iteration: a failed `generateFileDesc` contributes nothing. Otherwise exactly one descriptor is appended. |
| SharedMap.ProcessFiles | shared_map/find_dupes_shared_map.go:60-73 | A worker's loop, run with no other worker beside it, appends its successful descriptors in dequeue order. With several workers, their iterations interleave; `RunWorkers` models that case. |
| SharedMap.RunWorkers | shared_map/find_dupes_shared_map.go:81-83 | Interleaved workers run every dequeued path exactly once. The map is the successful descriptors appended in the order the iterations ran. |
| SharedMap.WorkerStep | shared_map/find_dupes_shared_map.go:62-70 | One iteration of whichever worker the schedule names: that worker's next path is dequeued. The map gains the descriptor of that path appended after those of all earlier iterations. |
| SharedMap.DescribedCount | shared_map/find_dupes_shared_map.go:63-67 | A descriptor occurs as often as its path was processed, if `generateFileDesc` yields it. Otherwise it never occurs. The lemma holds for any describing function that, like `generateFileDesc` (`Descriptors`), yields descriptors only for the path it was given. |
| SharedMap.InsertAllCount | shared_map/find_dupes_shared_map.go:68-70 | After the appends, each descriptor occurs under its own digest as often as it was appended, and under no other digest. No entry is lost or duplicated. |
| SharedMap.InsertAllKeys | shared_map/find_dupes_shared_map.go:68-70 | A digest is a key exactly when some appended descriptor carries it. |
| SharedMap.InsertAllOrderIndependent | shared_map/find_dupes_shared_map.go:68-70 | Appending the same descriptors in any two orders gives the same keys and the same multiset under every key. |
| SharedMap.FindDupes | shared_map/find_dupes_shared_map.go:75-111 | For every schedule and every split, a descriptor is listed under `h` as often as its path was queued when `generateFileDesc` yields it and its digest is `h`. Otherwise it is not listed. No list is empty. |
| SharedMap.InsertedOutcome | shared_map/find_dupes_shared_map.go:62-83 | Starting from the empty map, running every queued path once, in any order, gives the outcome `FindDupes` promises: each descriptor occurs as often as its path was queued, under its own digest only, and no list is empty. |
| SharedMap.OutcomeDeterminesGroups | shared_map/find_dupes_shared_map.go:75-111 | Any two runs give maps with the same keys and the same multiset under each key. |
| SharedMap.SharedSound | shared_map/find_dupes_shared_map.go:86-111 | A listed descriptor is what `generateFileDesc` of its path yields, under its own digest, and the walk queued it as an admitted entry. |
| SharedMap.SharedComplete | shared_map/find_dupes_shared_map.go:62-70 | Every queued, readable file is listed under the digest of its contents. |
| SharedMap.SingleFileClaimsDupes | shared_map/find_dupes_shared_map.go:113-131 | For a tree with one readable regular file, `printDupes` as written prints "Dupes found:" with no group. |
| SharedMap.SingleFileNoDupes | shared_map/find_dupes_shared_map.go:113-131 | For the same tree, the corrected report prints "No dupes found.". |
| SharedMap.FindAndReport | shared_map/find_dupes_shared_map.go:113-131 | `printDupes` with the corrected message, over the shared-map outcome. |

## Left out

- Goroutines, channels, the queue's capacity of 100 and the mutex are left out. The model replaces them with per-worker path lists, the order in which the reducer receives maps, and a schedule of whole worker iterations. Blocking and back-pressure are not modelled.
- A worker count of zero or less is left out. `main` takes any integer that `strconv.Atoi` accepts, zero and negative numbers included (find_dupes_merge_maps/main.go:176-183, shared_map/find_dupes_shared_map.go:156-161). With no worker, nothing dequeues. If the walk queues at most 100 paths, they all fit in the channel's buffer (find_dupes_merge_maps/main.go:78, 97). The queue is then closed (104), and the reduce loop (108) runs zero times. So `findDupes` returns an empty map, and "No dupes found." is printed even for a tree full of duplicates. The shared variant behaves the same way (shared_map/find_dupes_shared_map.go:76, 81-83, 104-110). If the walk queues more than 100 paths, there is no receiver, because the worker loop started no goroutine (find_dupes_merge_maps/main.go:81-83, shared_map/find_dupes_shared_map.go:81-83). The 101st send (line 97 in both files) then blocks the program's only goroutine, and the Go runtime aborts the run with a deadlock error. The model does not capture this. Both `FindDupes` members require the workers together to dequeue every queued path once, so a run with no worker fits them only when nothing is queued. The silent drop is not modelled.
- The done-signal loop of the shared variant (shared_map/find_dupes_shared_map.go:106-108) is left out. It only waits for every worker to finish, and `FindDupes` returns after `RunWorkers` has run the whole schedule.
- `filepath.Walk` is left out: its traversal, order and lexical sorting are not modelled. Its visits are given as a sequence. The error `filepath.Walk` itself returns is only logged, and it is not modelled.
- Real I/O is left out, since `os.Stat`, `os.Open`, `Read` and `Stat` are oracles. The buffer sizes (1 MiB and 4096 bytes) are irrelevant to the result, because a handle's script gives each read's bytes directly.
- MD5 itself and the `%x` formatting are left out. The digest is an uninterpreted function from the bytes read to a string. `MergeMaps.MergeSound` therefore states "same digest", not "same content"; content equality up to collisions is not stated.
- Log output (`fmt.Printf`) is left out. `Report.Printed` records what is printed as data: the message, or the header and the groups, each group a digest plus its descriptors with their mtimes.
- `main`, `IsDirectory` and argument parsing are left out.
- The file left open by `getMD5` is left out: it is a resource leak with no effect on the result.
- `find_dupes.go` is not part of this model, because it does not compile.
- `int64` sizes and modification times are modelled as unbounded `nat` and `int`. `Size()` is never negative, and no arithmetic is done on either value.

## Findings

| source | as written | input that shows it | evidently intended | confidence | as-written member | corrected member |
|---|---|---|---|---|---|---|
| find_dupes_merge_maps/main.go:137-142 | "No dupes found." only when the digest map is empty; otherwise "Duplicates:" is printed | two queued files of the same size with different contents: both are hashed, each sits alone under its digest, so the header is printed with no group | "No dupes found." whenever no digest has two or more files | not executed | MergeMaps.SameSizeDifferentContentClaimsDupes | Report.PrintDupesIntended |
| shared_map/find_dupes_shared_map.go:115-120 | "No dupes found." only when the digest map is empty; otherwise "Dupes found:" is printed | a tree with one readable regular file: it is listed alone under its digest, so the header is printed with no group | "No dupes found." whenever no digest has two or more files | not executed | SharedMap.SingleFileClaimsDupes | Report.PrintDupesIntended |
