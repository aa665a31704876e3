/**
 * `LruFilesCache` as a class. Its fields are the LruCache it owns (the
 * access-ordered names and the running size) and the disk it works on;
 * every method changes them step by step as the Kotlin code and the
 * LruCache it calls do, and is proved to end in the state the matching
 * `LruSpec` function describes, faults included: a second `add` of a name
 * deletes its folder, and `clear` in byte mode throws when the total is
 * not 0. `Valid` is the invariant every method keeps all the same.
 */
module LruFiles {
  import opened FileTree
  import opened LruSpec
  import opened LruTrim
  import opened LruOps
  import opened LruStartup

  /** The node at `p`, or an empty file when there is none: what `delFile` recurses on. */
  function Subtree(n: Node, p: Path): Node
  {
    match Lookup(n, p) case Some(m) => m case None => File(0)
  }

  class LruFilesCache {
    const root: Path
    const capacity: int
    const cntByte: bool
    /** The LruCache's names, eldest first; the value under `k` is the folder `root/k`. */
    var keys: seq<string>
    /** The LruCache's running size. */
    var size: int
    /** The filesystem the folders live in. */
    var disk: Node

    function Cfg(): Config
    {
      Config(root, capacity, cntByte)
    }

    function St(): State
      reads this
    {
      State(keys, size, disk)
    }

    /** The invariant of `LruSpec`, which holds even along the code's faulty paths. */
    ghost predicate Valid()
      reads this
    {
      Inv(Cfg(), St())
    }

    /**
     * The constructor and `createCache`: the capacity is `max(total, 1)`; a
     * missing root is made with `mkdirs`; otherwise the children the filter
     * accepts are sorted by last-modified time and put oldest first.
     */
    constructor (rootPath: Path, total: int, cntByte: bool, disk0: Node,
                 accept: (string, Node) -> bool, mtime: string -> int)
      ensures root == rootPath && capacity == (if total < 1 then 1 else total) && this.cntByte == cntByte
      ensures St() == Startup(Cfg(), disk0, accept, mtime).st
      ensures Valid() && Consistent(Cfg(), St())
    {
      root := rootPath;
      capacity := if total < 1 then 1 else total;
      this.cntByte := cntByte;
      keys := [];
      size := 0;
      disk := disk0;
      new;
      match Lookup(disk, root) {
        case None =>
          disk := MkdirsOrSame(disk, root);
        case Some(File(_)) =>
        case Some(Dir(ch)) =>
          var folders := Listing(ch, accept);
          if folders == [] {
            return;
          }
          var order := SortByMtime(folders, mtime);
          OrderSpec(ch, accept, mtime);
          var ok := PutAll(order);
      }
      assert Valid() && Consistent(Cfg(), St()) by { StartupOk(Cfg(), disk0, accept, mtime); }
    }

    /** The `forEach { put(it.name, it) }` of `createCache`; a throwing `put` ends it. */
    method PutAll(order: seq<string>) returns (ok: bool)
      requires Inv(Cfg(), St()) && Fresh(keys, order)
      modifies this
      ensures Outcome(St(), ok) == Seed(Cfg(), old(St()), order)
    {
      var i := 0;
      while i < |order|
        invariant 0 <= i <= |order|
        invariant Inv(Cfg(), St()) && Fresh(keys, order[i..])
        invariant Seed(Cfg(), St(), order[i..]) == Seed(Cfg(), old(St()), order)
      {
        assert order[i..][1..] == order[i + 1..];
        PutInv(Cfg(), St(), order[i]);
        FreshAfterPut(Cfg(), St(), order[i..]);
        ok := Put(order[i]);
        if !ok {
          return;
        }
        i := i + 1;
      }
      return true;
    }

    /**
     * `delFile(p, deleteSelf)`: nothing for a missing path; a file is
     * deleted; a directory has each child deleted recursively and is
     * deleted itself when `deleteSelf` holds.
     */
    method DelFile(p: Path, deleteSelf: bool)
      modifies this`disk
      ensures disk == Deleted(old(disk), p, deleteSelf)
      decreases Subtree(disk, p)
    {
      var d0 := disk;
      match Lookup(disk, p) {
        case None =>
        case Some(File(_)) =>
          disk := Update(disk, p, None);
        case Some(Dir(ch)) =>
          UpdateSame(d0, p);
          var rest := ch;
          while rest != map[]
            invariant forall x :: x in rest ==> x in ch && rest[x] == ch[x]
            invariant disk == Update(d0, p, Some(Dir(rest)))
            decreases |rest|
          {
            var k :| k in rest;
            LookupUpdateBelow(d0, p, Some(Dir(rest)), p + [k]);
            assert (p + [k])[|p|..] == [k];
            assert Subtree(disk, p + [k]) == ch[k];
            DelFile(p + [k], true);
            UpdateDropChild(d0, p, rest, k);
            rest := rest - {k};
          }
          if deleteSelf {
            UpdateTwice(d0, p, Some(Dir(map[])), None);
            disk := Update(disk, p, None);
          }
      }
    }

    /**
     * The `entryRemoved` override: whatever `evicted` and the new value
     * say, the old folder `root/k` is deleted recursively.
     */
    method EntryRemoved(evicted: bool, k: string, newValue: Option<Path>)
      modifies this`disk
      ensures disk == LruSpec.EntryRemoved(Cfg(), old(disk), k)
    {
      DelFile(root + [k], true);
    }

    /** LruCache's `trimToSize(maxSize)`; `false` stands for the `IllegalStateException` it throws. */
    method TrimToSize(maxSize: int) returns (ok: bool)
      modifies this
      ensures Outcome(St(), ok) == LruSpec.TrimToSize(Cfg(), old(St()), maxSize)
    {
      while true
        invariant LruSpec.TrimToSize(Cfg(), St(), maxSize) == LruSpec.TrimToSize(Cfg(), old(St()), maxSize)
        decreases |keys|
      {
        if size < 0 || (keys == [] && size != 0) {
          return false;
        }
        if size <= maxSize || keys == [] {
          return true;
        }
        var k := keys[0];
        keys := keys[1..];
        size := size - EntrySize(Cfg(), disk, k);
        EntryRemoved(true, k, None);
      }
    }

    /** LruCache's `put(k, root/k)`: a replaced value is reported to the override too. */
    method Put(k: string) returns (ok: bool)
      modifies this
      ensures Outcome(St(), ok) == LruSpec.Put(Cfg(), old(St()), k)
    {
      size := size + EntrySize(Cfg(), disk, k);
      if k in keys {
        keys := Promote(keys, k);
        size := size - EntrySize(Cfg(), disk, k);
        EntryRemoved(false, k, Some(root + [k]));
      } else {
        keys := keys + [k];
      }
      ok := TrimToSize(capacity);
    }

    /**
     * `add(k)`: `mkdirs` the folder when it does not exist, `put` it, and
     * return it. `false` stands for an exception out of `put`.
     */
    method Add(k: string) returns (folder: Path, ok: bool)
      requires Valid()
      modifies this
      ensures folder == root + [k]
      ensures Outcome(St(), ok) == LruSpec.Add(Cfg(), old(St()), k)
      ensures Valid() && (ok <==> keys != [] || size == 0)
      ensures old(Consistent(Cfg(), St())) && k !in old(keys) ==> ok && Consistent(Cfg(), St())
    {
      AddInv(Cfg(), St(), k);
      if Consistent(Cfg(), St()) {
        AddKeepingFolderKeeps(Cfg(), St(), k);
      }
      folder := root + [k];
      if Lookup(disk, folder).None? {
        disk := MkdirsOrSame(disk, folder);
      }
      ok := Put(k);
    }

    /** `remove(k)`: LruCache's `remove`, which reports the removal to the override. */
    method Remove(k: string) returns (folder: Option<Path>)
      requires Valid()
      modifies this
      ensures Reply(St(), folder) == LruSpec.Remove(Cfg(), old(St()), k)
      ensures Valid() && (old(Consistent(Cfg(), St())) ==> Consistent(Cfg(), St()))
    {
      RemoveSpec(Cfg(), St(), k);
      if k in keys {
        keys := Without(keys, k);
        size := size - EntrySize(Cfg(), disk, k);
        EntryRemoved(false, k, None);
        folder := Some(root + [k]);
      } else {
        folder := None;
      }
    }

    /** `get(k)`: LruCache's `get`; a hit becomes the newest. */
    method Get(k: string) returns (folder: Option<Path>)
      requires Valid()
      modifies this`keys
      ensures Reply(St(), folder) == LruSpec.Get(Cfg(), old(St()), k)
      ensures Valid() && (old(Consistent(Cfg(), St())) ==> Consistent(Cfg(), St()))
    {
      GetSpec(Cfg(), St(), k);
      if k in keys {
        keys := Promote(keys, k);
        folder := Some(root + [k]);
      } else {
        folder := None;
      }
    }

    /** `getOrAdd(k)`, taken sequentially: the registered folder, or else `add(k)`. */
    method GetOrAdd(k: string) returns (folder: Path, ok: bool)
      requires Valid()
      modifies this
      ensures folder == root + [k]
      ensures Outcome(St(), ok) == LruSpec.GetOrAdd(Cfg(), old(St()), k)
      ensures Valid() && (ok <==> keys != [] || size == 0)
      ensures old(Consistent(Cfg(), St())) ==> ok && Consistent(Cfg(), St())
    {
      GetOrAddSpec(Cfg(), St(), k);
      var hit := Get(k);
      if hit.Some? {
        return hit.value, true;
      }
      folder, ok := Add(k);
    }

    /**
     * `clear()`: empty the root on disk, keeping the root, then LruCache's
     * `evictAll()`. In byte mode every eviction then subtracts 0, so the
     * total is kept and a nonzero total makes `evictAll` throw.
     */
    method Clear() returns (ok: bool)
      requires Valid()
      modifies this
      ensures Outcome(St(), ok) == LruSpec.Clear(Cfg(), old(St()))
      ensures Valid() && keys == []
      ensures !cntByte ==> ok && size == 0
      ensures cntByte ==> size == old(size) && (ok <==> old(size) == 0)
    {
      ClearSpec(Cfg(), St(), []);
      DelFile(root, false);
      ok := EvictAll();
    }

    /** LruCache's `evictAll()`: `trimToSize(-1)`. */
    method EvictAll() returns (ok: bool)
      modifies this
      ensures Outcome(St(), ok) == LruSpec.TrimToSize(Cfg(), old(St()), -1)
    {
      ok := TrimToSize(-1);
    }

    // ---------------------------------------------------------- corrected operations

    /**
     * The `entryRemoved` override as evidently intended: the old folder is
     * deleted unless the new value is that same folder.
     */
    method EntryRemovedKeepingSame(evicted: bool, k: string, newValue: Option<Path>)
      modifies this`disk
      ensures disk == if newValue == Some(root + [k]) then old(disk) else LruSpec.EntryRemoved(Cfg(), old(disk), k)
    {
      if newValue != Some(root + [k]) {
        DelFile(root + [k], true);
      }
    }

    /** `put(k, root/k)` reporting a replacement to the corrected override, which keeps the folder. */
    method PutKeepingSame(k: string) returns (ok: bool)
      modifies this
      ensures Outcome(St(), ok) == LruOps.PutKeepingSame(Cfg(), old(St()), k)
    {
      size := size + EntrySize(Cfg(), disk, k);
      if k in keys {
        keys := Promote(keys, k);
        size := size - EntrySize(Cfg(), disk, k);
        EntryRemovedKeepingSame(false, k, Some(root + [k]));
      } else {
        keys := keys + [k];
      }
      ok := TrimToSize(capacity);
    }

    /** `add(k)` over the corrected `put`: with an exact total it never throws, and the folder stays. */
    method AddKeepingFolder(k: string) returns (folder: Path, ok: bool)
      requires Valid() && Consistent(Cfg(), St())
      modifies this
      ensures folder == root + [k]
      ensures Outcome(St(), ok) == LruOps.AddKeepingFolder(Cfg(), old(St()), k)
      ensures ok && Valid() && Consistent(Cfg(), St())
    {
      AddKeepingFolderKeeps(Cfg(), St(), k);
      folder := root + [k];
      if Lookup(disk, folder).None? {
        disk := MkdirsOrSame(disk, folder);
      }
      ok := PutKeepingSame(k);
    }

    /** `clear()` with its two steps swapped: `evictAll()`, then empty the root. */
    method ClearEvictingFirst() returns (ok: bool)
      requires Valid() && Consistent(Cfg(), St())
      modifies this
      ensures Outcome(St(), ok) == LruSpec.ClearEvictingFirst(Cfg(), old(St()))
      ensures ok && keys == [] && size == 0 && Valid() && Consistent(Cfg(), St())
    {
      ClearEvictingFirstCorrect(Cfg(), St(), []);
      ok := EvictAll();
      DelFile(root, false);
    }
  }
}
