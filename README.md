# LruFilesCache, modelled in Dafny

`LruFilesCache` keeps a bounded set of folders under one root directory.
Each registered name `k` owns the folder `root/k`. The names live in an
androidx `LruCache`, which orders them from least to most recently used
and keeps a running size. In count mode every folder counts 1; in byte
mode a folder counts the bytes of all files below it (`getFileSize`).
When the size goes over the capacity, the eldest names are evicted and
their folders are deleted recursively (`delFile`). At construction
(`createCache`) the cache takes over the folders already under the
root: those the filter accepts are sorted by last-modified time and
registered oldest first.

The project has these modules:

- `FileTree` (`file_tree.dfy`): the disk as a tree of directories and
  sized files. It defines lookup, update, `mkdirs`, `delFile` (the
  function `Deleted`) and `getFileSize` (the function `FileSize`).
- `StringOrder` (`string_order.dfy`): a fixed order on names. It stands
  for the order in which `listFiles` lists a directory.
- `LruSpec` (`lru_spec.dfy`): the behaviour as functions on values.
  It covers LruCache's `trimToSize`, `put`, `get` and `remove` with the
  `sizeOf` and `entryRemoved` overrides; the cache's `add`, `getOrAdd`
  and `clear`; and `createCache` (listing, sorting and seeding).
- `LruTrim`, `LruOps` and `LruStartup` (`lru_trim.dfy`, `lru_ops.dfy`,
  `lru_startup.dfy`): the lemmas about those functions. These cover
  eviction, each operation, start-up, and the three runs shown below.
- `LruFiles` (`lru_files.dfy`): `LruFilesCache` as a class whose fields
  are the LruCache's names and size and the disk. Each method updates
  these fields step by step, with loops where the code loops. Each is
  proved to end in exactly the state its `LruSpec` function gives, the
  code's faults included. Separate methods carry the corrected
  operations of the first two findings.

Both modes are modelled: `cntByte` is a field of `Config`. A `State`
holds the access-ordered names, LruCache's running total and the disk.
In `Outcome`, `ok == false` stands for LruCache's
`IllegalStateException`. `Inv` is what every reachable state satisfies,
even along the code's faulty paths. `Consistent` says that the total
equals what `sizeOf` reports now.

Where the code and its written description disagree, the model follows
the code:

- `remove` deletes the folder. LruCache's `remove` calls `entryRemoved`,
  and the override deletes the folder without looking at `evicted`.
- `get` and the hit path of `getOrAdd` promote the name to most recently
  used, since LruCache orders by access.
- `clear` resets the total only in count mode. In byte mode it keeps the
  total, and it throws when that total is not 0: see the first finding.
- `add` of a name that is already registered deletes the folder it
  returns: see the second finding.

The methods `EntryRemoved`, `Put`, `Add`, `GetOrAdd` and `Clear` of the
class `LruFiles.LruFilesCache` follow the code as written: they end in
`LruSpec.Put`, `LruSpec.Add`, `LruSpec.GetOrAdd` and `LruSpec.Clear`.
Every method keeps `Inv`, the class's `Valid`. The corrected operations
are separate methods that end in the corrected functions of `LruOps`
and `LruSpec`: `EntryRemovedKeepingSame`, `PutKeepingSame`,
`AddKeepingFolder` and `ClearEvictingFirst`. From an exact total they
keep the total exact and never throw.

## Model

| member | source | states |
|---|---|---|
| LruFiles.LruFilesCache.constructor | util-lru/src/main/java/io/github/chavin/util/lru/LruFilesCache.kt:18-32 | `createCache` at construction: the capacity is `max(total, 1)`, and the cache starts in exactly the state `Startup` gives for the disk, filter and modification times, with the invariant and an exact total |
| LruFiles.LruFilesCache.PutAll | util-lru/src/main/java/io/github/chavin/util/lru/LruFilesCache.kt:105 | the `forEach { put }` loop over fresh, distinct names ends in the state and exception outcome of `Seed` |
| LruFiles.LruFilesCache.DelFile | util-lru/src/main/java/io/github/chavin/util/lru/LruFilesCache.kt:109-126 | the recursive delete leaves exactly `Deleted(old disk, p, deleteSelf)` and changes no other field |
| LruFiles.LruFilesCache.EntryRemoved | util-lru/src/main/java/io/github/chavin/util/lru/LruFilesCache.kt:85-88 | the override deletes the old folder `root/k` recursively, whatever `evicted` and the new value say; nothing else changes |
| LruFiles.LruFilesCache.TrimToSize | util-lru/src/main/java/io/github/chavin/util/lru/LruFilesCache.kt:84 | LruCache's eviction loop ends in the state and exception outcome of `LruSpec.TrimToSize` |
| LruFiles.LruFilesCache.Put | util-lru/src/main/java/io/github/chavin/util/lru/LruFilesCache.kt:42 | `put` ends in the state and exception outcome of `LruSpec.Put`: a replacement of a registered name is reported to the override, which deletes its folder |
| LruFiles.LruFilesCache.Add | util-lru/src/main/java/io/github/chavin/util/lru/LruFilesCache.kt:37-44 | returns `root/k` and ends in `LruSpec.Add` of the old state, a registered name's folder deleted; the invariant is kept, it throws exactly when it leaves no names and a nonzero total, and a new name onto an exact total never throws and keeps it exact |
| LruFiles.LruFilesCache.Remove | util-lru/src/main/java/io/github/chavin/util/lru/LruFilesCache.kt:49-51 | ends in `LruSpec.Remove` of the old state, returning the folder on a hit and nothing on a miss; the invariant is kept, and an exact total stays exact |
| LruFiles.LruFilesCache.Get | util-lru/src/main/java/io/github/chavin/util/lru/LruFilesCache.kt:56-58 | changes only the access order, ending in `LruSpec.Get` (a hit is promoted and returns `root/k`); the invariant is kept, and an exact total stays exact |
| LruFiles.LruFilesCache.GetOrAdd | util-lru/src/main/java/io/github/chavin/util/lru/LruFilesCache.kt:63-71 | returns `root/k` and ends in `LruSpec.GetOrAdd` of the old state; the invariant is kept, it throws exactly when it leaves no names and a nonzero total, and from an exact total it never throws and keeps it exact |
| LruFiles.LruFilesCache.Clear | util-lru/src/main/java/io/github/chavin/util/lru/LruFilesCache.kt:77-80 | as written (empty the root, then `evictAll`): ends in `LruSpec.Clear` of the old state with no names and the invariant kept; count mode ends with total 0 and no exception; byte mode keeps the total and throws exactly when it is not 0 |
| LruFiles.LruFilesCache.EvictAll | util-lru/src/main/java/io/github/chavin/util/lru/LruFilesCache.kt:79 | `evictAll` is `trimToSize(-1)`: it ends in `LruSpec.TrimToSize(old, -1)` |
| LruFiles.LruFilesCache.EntryRemovedKeepingSame | util-lru/src/main/java/io/github/chavin/util/lru/LruFilesCache.kt:85-88 | the override as evidently intended: the old folder is deleted unless the new value is that same folder; nothing else changes |
| LruFiles.LruFilesCache.PutKeepingSame | util-lru/src/main/java/io/github/chavin/util/lru/LruFilesCache.kt:42 | `put` reporting a replacement to the corrected override ends in `LruOps.PutKeepingSame`: a registered name is promoted and keeps its folder |
| LruFiles.LruFilesCache.AddKeepingFolder | util-lru/src/main/java/io/github/chavin/util/lru/LruFilesCache.kt:37-44 | the corrected `add` returns `root/k`, ends in `LruOps.AddKeepingFolder`, never throws from an exact total, and keeps the invariant and the exact total |
| LruFiles.LruFilesCache.ClearEvictingFirst | util-lru/src/main/java/io/github/chavin/util/lru/LruFilesCache.kt:77-80 | the corrected `clear` (evict, then empty the root) ends in `ClearEvictingFirst` with no names, total 0, no exception, and an exact total |
| FileTree.DeletedAt | util-lru/src/main/java/io/github/chavin/util/lru/LruFilesCache.kt:109-126 | `delFile` on a missing path changes nothing; a file is gone afterwards; a directory is gone with `deleteSelf` and left empty without it |
| FileTree.DeletedBelow | util-lru/src/main/java/io/github/chavin/util/lru/LruFilesCache.kt:117-122 | after `delFile` nothing below the path exists |
| FileTree.DeletedApart | util-lru/src/main/java/io/github/chavin/util/lru/LruFilesCache.kt:109-126 | `delFile` changes no path that is neither above nor below the deleted one |
| FileTree.DeletedTwice | util-lru/src/main/java/io/github/chavin/util/lru/LruFilesCache.kt:109-126 | a second `delFile` of the same path changes nothing more |
| FileTree.DeletedKeepsMissing | util-lru/src/main/java/io/github/chavin/util/lru/LruFilesCache.kt:109-126 | `delFile` never makes a missing path exist |
| FileTree.FileSizeCases | util-lru/src/main/java/io/github/chavin/util/lru/LruFilesCache.kt:128-140 | `getFileSize`: 0 for a missing path and an empty directory, the length for a file, one child's size plus the rest for a directory |
| FileTree.SizeAtLeastChild | util-lru/src/main/java/io/github/chavin/util/lru/LruFilesCache.kt:139 | a directory's size is at least any child's size |
| FileTree.MkdirsSucceedsIff | util-lru/src/main/java/io/github/chavin/util/lru/LruFilesCache.kt:40 | `mkdirs` succeeds exactly when no prefix of the path is a file |
| FileTree.MkdirsMakesDir | util-lru/src/main/java/io/github/chavin/util/lru/LruFilesCache.kt:40 | after a successful `mkdirs` the path is a directory, a new one empty, and an existing directory is left unchanged |
| FileTree.MkdirsApart | util-lru/src/main/java/io/github/chavin/util/lru/LruFilesCache.kt:40 | `mkdirs` changes no path apart from the one it makes |
| StringOrder.Ascending | util-lru/src/main/java/io/github/chavin/util/lru/LruFilesCache.kt:99 | the listing holds each of the directory's names exactly once, in a fixed order |
| LruSpec.Accepted | util-lru/src/main/java/io/github/chavin/util/lru/LruFilesCache.kt:99 | `listFiles(filter)` keeps exactly the children the filter accepts |
| LruSpec.ToInt32 | util-lru/src/main/java/io/github/chavin/util/lru/LruFilesCache.kt:104 | `toInt()` yields a signed 32-bit value congruent to its argument modulo 2^32, and leaves values already in range unchanged |
| LruTrim.TrimKeepsSuffix | util-lru/src/main/java/io/github/chavin/util/lru/LruFilesCache.kt:84 | eviction only drops the eldest names: what stays is a suffix of the access order |
| LruTrim.TrimDeletesEvicted | util-lru/src/main/java/io/github/chavin/util/lru/LruFilesCache.kt:85-88 | every evicted name has its folder deleted |
| LruTrim.TrimDeletesDropped | util-lru/src/main/java/io/github/chavin/util/lru/LruFilesCache.kt:87 | a name that eviction drops has no folder afterwards |
| LruTrim.TrimFrame | util-lru/src/main/java/io/github/chavin/util/lru/LruFilesCache.kt:85-88 | eviction changes nothing on disk apart from the evicted folders |
| LruTrim.TrimKeepsMissing | util-lru/src/main/java/io/github/chavin/util/lru/LruFilesCache.kt:85-88 | eviction never makes a missing path exist |
| LruTrim.TrimInv | util-lru/src/main/java/io/github/chavin/util/lru/LruFilesCache.kt:84 | eviction keeps names distinct and the total no lower than the reported sizes, and ends within `maxSize` or empty; in LruCache's consistency check, the exception is thrown exactly when an empty map is left with a nonzero total |
| LruTrim.TrimConsistent | util-lru/src/main/java/io/github/chavin/util/lru/LruFilesCache.kt:90-94 | from an exact total, eviction never throws and the total stays exact |
| LruTrim.TrimCount | util-lru/src/main/java/io/github/chavin/util/lru/LruFilesCache.kt:93 | in count mode eviction keeps exactly the `maxSize` newest names |
| LruTrim.TrimTooBig | util-lru/src/main/java/io/github/chavin/util/lru/LruFilesCache.kt:92 | when the newest entry alone exceeds `maxSize`, everything is evicted |
| LruTrim.TrimKeepsNewest | util-lru/src/main/java/io/github/chavin/util/lru/LruFilesCache.kt:90-94 | with an exact total and a newest entry within `maxSize`, something stays registered |
| LruTrim.TrimKeepsRootDir | util-lru/src/main/java/io/github/chavin/util/lru/LruFilesCache.kt:85-88 | eviction keeps the root a directory |
| LruTrim.TrimMissingFolders | util-lru/src/main/java/io/github/chavin/util/lru/LruFilesCache.kt:78-79 | when no registered folder exists, eviction changes nothing on disk, and in byte mode it subtracts nothing |
| LruOps.PutInv | util-lru/src/main/java/io/github/chavin/util/lru/LruFilesCache.kt:42 | `put` keeps the invariant; it throws exactly when it leaves an empty map with a nonzero total; the names kept are a suffix of the promoted order |
| LruOps.PutCount | util-lru/src/main/java/io/github/chavin/util/lru/LruFilesCache.kt:93 | in count mode `put` never throws and keeps exactly the `capacity` newest names of the promoted order, the new name last |
| LruOps.PutNewFits | util-lru/src/main/java/io/github/chavin/util/lru/LruFilesCache.kt:42 | a new name that fits the capacity stays registered as the newest, and the total stays exact |
| LruOps.PutNewConsistent | util-lru/src/main/java/io/github/chavin/util/lru/LruFilesCache.kt:105 | a `put` of a new name onto an exact total never throws and keeps the total exact |
| LruOps.PutTooBig | util-lru/src/main/java/io/github/chavin/util/lru/LruFilesCache.kt:92 | a new name larger than the capacity empties the cache, and its folder is deleted |
| LruOps.PutDeletes | util-lru/src/main/java/io/github/chavin/util/lru/LruFilesCache.kt:85-88 | every name `put` drops, and a replaced name itself, has its folder deleted |
| LruOps.PutKeepsSurvivors | util-lru/src/main/java/io/github/chavin/util/lru/LruFilesCache.kt:42 | every other name that stays registered keeps its folder unchanged |
| LruOps.PutKeepsMissing | util-lru/src/main/java/io/github/chavin/util/lru/LruFilesCache.kt:42 | `put` never makes a missing path exist |
| LruOps.PutFrame | util-lru/src/main/java/io/github/chavin/util/lru/LruFilesCache.kt:42 | `put` changes nothing on disk apart from the folders of the names involved |
| LruOps.MakeFolderSpec | util-lru/src/main/java/io/github/chavin/util/lru/LruFilesCache.kt:39-41 | after its first step of `add` the folder exists exactly when it existed or no prefix is a file; a created folder is empty; an existing one is untouched; nothing apart changes |
| LruOps.MakeFolderUnderRoot | util-lru/src/main/java/io/github/chavin/util/lru/LruFilesCache.kt:39-41 | when the root is a directory, a missing folder is created empty |
| LruOps.AddInv | util-lru/src/main/java/io/github/chavin/util/lru/LruFilesCache.kt:37-44 | `add` keeps the invariant; it throws exactly when it leaves an empty map with a nonzero total; the names kept are a suffix of the promoted order |
| LruOps.AddCount | util-lru/src/main/java/io/github/chavin/util/lru/LruFilesCache.kt:37-44 | in count mode `add` never throws and keeps the `capacity` newest names, the added one last |
| LruOps.AddCreatesFolder | util-lru/src/main/java/io/github/chavin/util/lru/LruFilesCache.kt:37-44 | adding a new name whose folder is missing under the root directory creates it empty, registers the name as the newest, and keeps an exact total exact |
| LruOps.AddExisting | util-lru/src/main/java/io/github/chavin/util/lru/LruFilesCache.kt:42 | as written, `add` of a registered name promotes it and keeps the total, but deletes the folder it returns |
| LruOps.AddFrame | util-lru/src/main/java/io/github/chavin/util/lru/LruFilesCache.kt:37-44 | `add` changes nothing on disk apart from the folders of the names involved |
| LruOps.AddKeepsRootDir | util-lru/src/main/java/io/github/chavin/util/lru/LruFilesCache.kt:37-44 | `add` keeps the root a directory |
| LruOps.AddKeepsSurvivors | util-lru/src/main/java/io/github/chavin/util/lru/LruFilesCache.kt:37-44 | every other name still registered after `add` keeps its folder |
| LruOps.AddFolders | util-lru/src/main/java/io/github/chavin/util/lru/LruFilesCache.kt:37-44 | for any other name: a survivor keeps its folder, an evicted name's folder is deleted, and an unregistered name's folder is untouched |
| LruOps.AddKeepingFolderCorrect | util-lru/src/main/java/io/github/chavin/util/lru/LruFilesCache.kt:85-88 | with the corrected override, `add` of a registered name promotes it, never throws, keeps the total exact and leaves its folder in place |
| LruOps.AddKeepingFolderKeeps | util-lru/src/main/java/io/github/chavin/util/lru/LruFilesCache.kt:37-44 | the corrected `add` never throws, keeps the invariant and exact total, and agrees with `add` as written for a new name |
| LruOps.GetSpec | util-lru/src/main/java/io/github/chavin/util/lru/LruFilesCache.kt:56-58 | a hit returns `root/k` and only promotes the name, keeping the set of names, their count, the total and the disk; a miss changes nothing; the invariant and exact total are kept |
| LruOps.GetIdempotent | util-lru/src/main/java/io/github/chavin/util/lru/LruFilesCache.kt:56-58 | a second `get` of the same name changes nothing more |
| LruOps.RemoveSpec | util-lru/src/main/java/io/github/chavin/util/lru/LruFilesCache.kt:49-51 | a hit unregisters the name (keeping the others' order), returns its folder, lowers the count by one and deletes the folder; a miss changes nothing; the invariant and exact total are kept |
| LruOps.RemoveFrame | util-lru/src/main/java/io/github/chavin/util/lru/LruFilesCache.kt:49-51 | `remove` changes nothing on disk outside the removed folder |
| LruOps.GetOrAddSpec | util-lru/src/main/java/io/github/chavin/util/lru/LruFilesCache.kt:63-71 | a registered name is promoted with nothing else changed (its folder is not deleted); any other name is `add`; the invariant is kept |
| LruOps.GetOrAddNewest | util-lru/src/main/java/io/github/chavin/util/lru/LruFilesCache.kt:63-71 | afterwards the name is the newest, and a new name's folder is created empty |
| LruOps.ClearSpec | util-lru/src/main/java/io/github/chavin/util/lru/LruFilesCache.kt:77-80 | as written: the map ends empty and the root ends an empty directory, with nothing outside the root changed; count mode ends with total 0; byte mode keeps the total and throws exactly when it is not 0 |
| LruOps.ClearThrows | util-lru/src/main/java/io/github/chavin/util/lru/LruFilesCache.kt:77-80 | in byte mode a cache holding any bytes makes `clear` throw, with the total never reset |
| LruOps.ClearEvictingFirstCorrect | util-lru/src/main/java/io/github/chavin/util/lru/LruFilesCache.kt:77-80 | evicting first, `clear` never throws and leaves no names and a total of 0; the root ends an empty directory and nothing outside it changes |
| LruStartup.SortSpec | util-lru/src/main/java/io/github/chavin/util/lru/LruFilesCache.kt:104 | the sort by modification time is ascending, a permutation of its input, and keeps distinct names distinct |
| LruStartup.TruncatedCompareMisorders | util-lru/src/main/java/io/github/chavin/util/lru/LruFilesCache.kt:104 | two folders whose modification times differ by 2^32 ms compare as equal with the comparator as written, so the sort leaves the newer one first; the corrected sort orders them |
| LruStartup.ListingSpec | util-lru/src/main/java/io/github/chavin/util/lru/LruFilesCache.kt:99 | the filtered listing is distinct and holds exactly the accepted children |
| LruStartup.OrderSpec | util-lru/src/main/java/io/github/chavin/util/lru/LruFilesCache.kt:99-104 | the seeding order is distinct, ascending by modification time, and holds exactly the accepted children |
| LruStartup.SeedSpec | util-lru/src/main/java/io/github/chavin/util/lru/LruFilesCache.kt:105 | seeding fresh names onto an exact state never throws, keeps the invariant and exact total, and keeps a suffix of the names |
| LruStartup.SeedCount | util-lru/src/main/java/io/github/chavin/util/lru/LruFilesCache.kt:105 | in count mode seeding keeps exactly the `capacity` newest names |
| LruStartup.SeedDeletesDropped | util-lru/src/main/java/io/github/chavin/util/lru/LruFilesCache.kt:105 | every name seeding registers and then drops has its folder deleted |
| LruStartup.SeedKeepsMissing | util-lru/src/main/java/io/github/chavin/util/lru/LruFilesCache.kt:105 | seeding never makes a missing path exist |
| LruStartup.SeedFrame | util-lru/src/main/java/io/github/chavin/util/lru/LruFilesCache.kt:105 | seeding changes nothing on disk apart from the folders of the names involved |
| LruStartup.StartupOk | util-lru/src/main/java/io/github/chavin/util/lru/LruFilesCache.kt:96-106 | `createCache` never throws and starts with the invariant and an exact total |
| LruStartup.StartupMissingRoot | util-lru/src/main/java/io/github/chavin/util/lru/LruFilesCache.kt:96-98 | a missing root gives an empty cache; afterwards the root is a directory exactly when no prefix of it is a file |
| LruStartup.StartupRootIsFile | util-lru/src/main/java/io/github/chavin/util/lru/LruFilesCache.kt:99-101 | a root that is a file gives an empty cache and an unchanged disk |
| LruStartup.StartupEmptyRoot | util-lru/src/main/java/io/github/chavin/util/lru/LruFilesCache.kt:100-101 | an empty root directory gives an empty cache and an unchanged disk |
| LruStartup.StartupFromDir | util-lru/src/main/java/io/github/chavin/util/lru/LruFilesCache.kt:99-106 | from a root directory the registered names are all accepted children, in ascending modification time, a suffix of the seeding order; in count mode exactly its `capacity` newest |
| LruStartup.StartupDisk | util-lru/src/main/java/io/github/chavin/util/lru/LruFilesCache.kt:99-106 | accepted children that do not stay registered are deleted; rejected children stay unregistered and untouched; nothing outside the root changes |
| LruStartup.ClearThrowsAfterStartup | util-lru/src/main/java/io/github/chavin/util/lru/LruFilesCache.kt:77-80 | byte mode, capacity 10, root `cache` holding `a/f` of 5 bytes: startup registers `a` with total 5, and a following `clear` throws, keeps the total 5 and leaves no names |
| LruStartup.ThirdEvictsFirst | src/main/kotlin/Main.kt:13-17 | in count mode with capacity 2, three `getOrAdd` calls of new names on an empty cache leave the last two registered with empty folders and delete the first one's folder |
| LruStartup.DemoRun | src/main/kotlin/Main.kt:7-19 | the demo (capacity 2, count mode, an empty root, `test`, `hello`, `world`) ends with `hello` and `world` registered and their folders present, and the `test` folder gone |

## Left out

- Concurrency: the `synchronized` block of `getOrAdd` (lines 68-70) re-checks `get` before it calls `add`. The model takes each call as sequential, so that re-check always misses. The `@WorkerThread` annotation on `clear` (line 76) is not modelled.
- Logging: the `println` in `entryRemoved` (line 86) does nothing the model observes.
- LruCache's hit, miss and eviction counters and its `create` hook: `LruFilesCache` never reads or overrides them.
- LruSpec.EntrySize: the `Long.toInt()` on line 92 is not modelled. A folder of 2^31 bytes or more is counted at its real size here, not at its truncated 32-bit value.
- Listing order: `File.listFiles` promises no order, so `StringOrder.Ascending` fixes ascending name order. The start-up lemmas are proved for that listing only.
- LruSpec.SortByMtime: `Arrays.sort` with the comparator on line 104 is TimSort, and that comparator is not a consistent order (third finding). The model sorts with a stable insertion sort under the exact comparison. `LruSpec.SortAsWritten` is an insertion sort under the truncated comparator. It agrees with TimSort only where that comparator is consistent, as for the two folders 2^32 ms apart of the third finding. Where it is not (for example folders listed `a`, `c`, `b` with times 0, 0xC000_0000 and 0x6000_0000 ms, or two folders exactly 2^31 ms apart), TimSort's run detection can order them differently.
- Times: `lastModified()` is a parameter `mtime`, and the filter is a parameter `accept`.
- File system failures: every delete succeeds. `mkdirs` fails only when a file lies on the path. Permissions and races with other processes are not modelled.
- Files that callers write into the folders, like the demo writes on `src/main/kotlin/Main.kt` lines 15 and 18: they enter the model only through the disk a call is given.
- Paths are sequences of names. Parsing the `rootPath` string and `File` objects that are `null` are not modelled.
- LruSpec.Folder: a name is taken as exactly one path segment, `root/k`. In the code, `File(root, "")` is the root itself, so `add("")` registers the root and evicting it deletes the whole cache directory; a name such as `a/b` or `..` names a nested or outside path. The model does not capture these aliasings.
- LruSpec.Put: LruCache's `size` and `maxSize` are 32-bit `Int`s, so `size += sizeOf(...)` can wrap to a negative value, after which `trimToSize` throws. The model's totals are unbounded integers, so this overflow, and the throw it causes, is not modelled; only totals below 2^31 behave alike.

## Findings

| source | as written | input that shows it | evidently intended | confidence | as-written member | corrected member |
|---|---|---|---|---|---|---|
| util-lru/src/main/java/io/github/chavin/util/lru/LruFilesCache.kt:77-80 | In byte mode `clear` deletes everything under the root and then calls `evictAll`. Each eviction then subtracts a `sizeOf` of 0, so the total never falls, and LruCache throws `IllegalStateException` once the map is empty with a nonzero size. | byte mode, capacity 10, root `cache` holding `a/f` of 5 bytes; start up, then `clear()` | `clear` leaves an empty cache with total 0 and does not throw (evict first, then empty the root) | not executed | LruStartup.ClearThrowsAfterStartup | LruOps.ClearEvictingFirstCorrect |
| util-lru/src/main/java/io/github/chavin/util/lru/LruFilesCache.kt:85-88 | `add(k)` for a registered `k` calls `put`, which reports the replaced value to the `entryRemoved` override. The override deletes the folder, and `add` returns that deleted folder while `k` stays registered. | count mode, capacity 2; `add("a")` twice | a second `add` keeps the folder, since the old and new values are the same folder | not executed | LruOps.AddExisting | LruOps.AddKeepingFolderCorrect |
| util-lru/src/main/java/io/github/chavin/util/lru/LruFilesCache.kt:104 | The comparator truncates the `Long` difference of two modification times with `toInt()`, so times 2^32 ms apart compare as equal and the stable sort keeps the newer folder first. | two accepted folders, listed `a` then `b`, whose `lastModified` times are 4294967296 ms apart, `a` the newer | folders are put oldest first, so the oldest is evicted first | not executed | LruStartup.TruncatedCompareMisorders | LruStartup.SortSpec |
