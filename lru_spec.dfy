/**
 * The behaviour of the cache as functions on values: androidx's `LruCache`
 * (an access-ordered map with a running size and `trimToSize`) specialised
 * to the `sizeOf` and `entryRemoved` overrides of `LruFilesCache`, over the
 * abstract disk of `FileTree`. The class in `LruFiles` is proved to follow
 * these functions; the lemmas here state what they guarantee.
 */
module LruSpec {
  import opened FileTree
  import opened StringOrder

  /** The fixed parameters: the root folder, the capacity `max(total, 1)`, and byte mode. */
  datatype Config = Config(root: Path, capacity: int, cntByte: bool)

  /**
   * The LruCache map and the disk. `keys` lists the registered names from
   * eldest to newest; the value stored under name `k` is the folder
   * `root/k`. `total` is LruCache's running size.
   */
  datatype State = State(keys: seq<string>, total: int, disk: Node)

  /** The state after an operation; `ok` is false when LruCache threw `IllegalStateException`. */
  datatype Outcome = Outcome(st: State, ok: bool)

  /** The state after a lookup-style operation, and the folder it returned (`null` is `None`). */
  datatype Reply = Reply(st: State, folder: Option<Path>)

  function Folder(c: Config, k: string): Path
  {
    c.root + [k]
  }

  /** The `sizeOf` override: 1 per entry, or the folder's `getFileSize` in byte mode. */
  function EntrySize(c: Config, disk: Node, k: string): nat
  {
    if c.cntByte then FileSize(Lookup(disk, Folder(c, k))) else 1
  }

  /** The `entryRemoved` override: whatever `evicted` says, the folder is deleted recursively. */
  function EntryRemoved(c: Config, disk: Node, k: string): Node
  {
    Deleted(disk, Folder(c, k), true)
  }

  predicate Distinct(keys: seq<string>)
  {
    forall i, j :: 0 <= i < j < |keys| ==> keys[i] != keys[j]
  }

  /** `keys` without `k`, the others in their order. */
  function Without(keys: seq<string>, k: string): (r: seq<string>)
    ensures forall x :: x in r <==> x in keys && x != k
    ensures |r| <= |keys|
  {
    if keys == [] then []
    else if keys[0] == k then Without(keys[1..], k)
    else [keys[0]] + Without(keys[1..], k)
  }

  /** The access order after touching `k`: `k` moves to the newest position. */
  function Promote(keys: seq<string>, k: string): seq<string>
  {
    Without(keys, k) + [k]
  }

  /** The `n` newest of `keys` (none when `n` is not positive). */
  function Newest(keys: seq<string>, n: int): (r: seq<string>)
    ensures |r| <= |keys| && r == keys[|keys| - |r|..]
  {
    if |keys| <= n then keys else if n <= 0 then [] else keys[|keys| - n..]
  }

  /** The sizes of `keys` as `sizeOf` would report them on `disk`. */
  function SumSizes(c: Config, disk: Node, keys: seq<string>): nat
  {
    if keys == [] then 0 else EntrySize(c, disk, keys[0]) + SumSizes(c, disk, keys[1..])
  }

  /**
   * What every reachable state satisfies: distinct names, a total never
   * below what `sizeOf` reports (equal to the entry count in count mode),
   * and the total within capacity unless the map is empty.
   */
  predicate Inv(c: Config, s: State)
  {
    && c.capacity >= 1
    && Distinct(s.keys)
    && s.total >= SumSizes(c, s.disk, s.keys)
    && (!c.cntByte ==> s.total == |s.keys|)
    && (s.total <= c.capacity || s.keys == [])
  }

  /** The total agrees exactly with what `sizeOf` reports now. */
  predicate Consistent(c: Config, s: State)
  {
    s.total == SumSizes(c, s.disk, s.keys)
  }

  // ------------------------------------------------------------ LruCache

  /**
   * `trimToSize(maxSize)`: while the total exceeds `maxSize` and the map is
   * not empty, drop the eldest entry, subtract its size as `sizeOf` reports
   * it now, and delete its folder. Each round first checks that the size is
   * not negative and is 0 once the map is empty; otherwise it throws.
   */
  function TrimToSize(c: Config, s: State, maxSize: int): Outcome
    decreases |s.keys|
  {
    if s.total < 0 || (s.keys == [] && s.total != 0) then Outcome(s, false)
    else if s.total <= maxSize || s.keys == [] then Outcome(s, true)
    else
      var k := s.keys[0];
      var total := s.total - EntrySize(c, s.disk, k);
      TrimToSize(c, State(s.keys[1..], total, EntryRemoved(c, s.disk, k)), maxSize)
  }

  /**
   * `put(k, root/k)`: add the new size; when `k` was present, promote it,
   * subtract the previous value's size and delete the folder (the override
   * ignores that this is a replacement); then trim to capacity.
   */
  function Put(c: Config, s: State, k: string): Outcome
  {
    var total := s.total + EntrySize(c, s.disk, k);
    if k in s.keys then
      var total' := total - EntrySize(c, s.disk, k);
      TrimToSize(c, State(Promote(s.keys, k), total', EntryRemoved(c, s.disk, k)), c.capacity)
    else
      TrimToSize(c, State(s.keys + [k], total, s.disk), c.capacity)
  }

  /** `get(k)`: a hit returns `root/k` and promotes `k`; a miss returns `null`. */
  function Get(c: Config, s: State, k: string): Reply
  {
    if k in s.keys then Reply(State(Promote(s.keys, k), s.total, s.disk), Some(Folder(c, k)))
    else Reply(s, None)
  }

  /** `remove(k)`: unregister, subtract the size, and (through the override) delete the folder. */
  function Remove(c: Config, s: State, k: string): Reply
  {
    if k in s.keys then
      Reply(State(Without(s.keys, k), s.total - EntrySize(c, s.disk, k), EntryRemoved(c, s.disk, k)), Some(Folder(c, k)))
    else Reply(s, None)
  }

  // ------------------------------------------------------------ LruFilesCache

  /** The first step of `add(k)`: `mkdirs` the folder when it does not exist. */
  function MakeFolder(c: Config, disk: Node, k: string): Node
  {
    if Lookup(disk, Folder(c, k)).None? then MkdirsOrSame(disk, Folder(c, k)) else disk
  }

  /** `add(k)`: make the folder, then `put` it. It returns `root/k`. */
  function Add(c: Config, s: State, k: string): Outcome
  {
    Put(c, State(s.keys, s.total, MakeFolder(c, s.disk, k)), k)
  }

  /** `getOrAdd(k)`, taken sequentially: a hit is a `get`, a miss an `add`. It returns `root/k`. */
  function GetOrAdd(c: Config, s: State, k: string): Outcome
  {
    if k in s.keys then Outcome(Get(c, s, k).st, true) else Add(c, s, k)
  }

  /** `clear()`: delete everything below the root, keeping the root, then `evictAll()`. */
  function Clear(c: Config, s: State): Outcome
  {
    TrimToSize(c, State(s.keys, s.total, Deleted(s.disk, c.root, false)), -1)
  }

  /** `evictAll()` first and the disk afterwards: `clear()` with its two steps swapped. */
  function ClearEvictingFirst(c: Config, s: State): Outcome
  {
    var o := TrimToSize(c, s, -1);
    Outcome(State(o.st.keys, o.st.total, Deleted(o.st.disk, c.root, false)), o.ok)
  }

  // ------------------------------------------------------------ startup

  /** Inserts `x` before the first element of `sorted` whose mtime is not earlier than its own. */
  function InsertByMtime(x: string, sorted: seq<string>, mtime: string -> int): seq<string>
  {
    if sorted == [] || mtime(x) <= mtime(sorted[0]) then [x] + sorted
    else [sorted[0]] + InsertByMtime(x, sorted[1..], mtime)
  }

  /** `Arrays.sort` by ascending last-modified time (stable; an ideal comparator). */
  function SortByMtime(xs: seq<string>, mtime: string -> int): seq<string>
  {
    if xs == [] then [] else InsertByMtime(xs[0], SortByMtime(xs[1..], mtime), mtime)
  }

  /** Kotlin's `Long.toInt()`: the low 32 bits read as a signed value. */
  function ToInt32(x: int): (r: int)
    ensures -0x8000_0000 <= r < 0x8000_0000
    ensures (x - r) % 0x1_0000_0000 == 0
    ensures -0x8000_0000 <= x < 0x8000_0000 ==> r == x
  {
    var m := x % 0x1_0000_0000;
    if m >= 0x8000_0000 then m - 0x1_0000_0000 else m
  }

  /** The comparator `createCache` passes to `Arrays.sort`: the difference of the times, truncated to `Int`. */
  function CompareAsWritten(x: string, y: string, mtime: string -> int): int
  {
    ToInt32(mtime(x) - mtime(y))
  }

  /** `InsertByMtime` with the comparator as written. */
  function InsertAsWritten(x: string, sorted: seq<string>, mtime: string -> int): seq<string>
  {
    if sorted == [] || CompareAsWritten(x, sorted[0], mtime) <= 0 then [x] + sorted
    else [sorted[0]] + InsertAsWritten(x, sorted[1..], mtime)
  }

  /** The stable sort by the comparator as written. */
  function SortAsWritten(xs: seq<string>, mtime: string -> int): seq<string>
  {
    if xs == [] then [] else InsertAsWritten(xs[0], SortAsWritten(xs[1..], mtime), mtime)
  }

  predicate SortedByMtime(xs: seq<string>, mtime: string -> int)
  {
    forall i, j :: 0 <= i < j < |xs| ==> mtime(xs[i]) <= mtime(xs[j])
  }

  /** The names of `names` whose child the filter accepts, in listing order. */
  function Accepted(names: seq<string>, ch: map<string, Node>, accept: (string, Node) -> bool): (r: seq<string>)
    requires forall x :: x in names ==> x in ch
    ensures forall x :: x in r <==> x in names && accept(x, ch[x])
  {
    if names == [] then []
    else if accept(names[0], ch[names[0]]) then [names[0]] + Accepted(names[1..], ch, accept)
    else Accepted(names[1..], ch, accept)
  }

  /** `listFiles(filter)` on a directory's children (listed in ascending name order). */
  function Listing(ch: map<string, Node>, accept: (string, Node) -> bool): seq<string>
  {
    Accepted(Ascending(ch.Keys), ch, accept)
  }

  /** `forEach { put }`: the names put one after another; a throwing `put` aborts. */
  function Seed(c: Config, s: State, order: seq<string>): Outcome
    decreases |order|
  {
    if order == [] then Outcome(s, true)
    else
      var o := Put(c, s, order[0]);
      if !o.ok then o else Seed(c, o.st, order[1..])
  }

  /**
   * `createCache`: a missing root is created with its parents and the cache
   * starts empty (also when `mkdirs` fails, as the listing is then `null`);
   * a root that is a file lists as `null`; otherwise the accepted children
   * are sorted oldest first and put in that order.
   */
  function Startup(c: Config, disk: Node, accept: (string, Node) -> bool, mtime: string -> int): Outcome
  {
    match Lookup(disk, c.root)
    case None => Outcome(State([], 0, MkdirsOrSame(disk, c.root)), true)
    case Some(File(_)) => Outcome(State([], 0, disk), true)
    case Some(Dir(ch)) => Seed(c, State([], 0, disk), SortByMtime(Listing(ch, accept), mtime))
  }
}
