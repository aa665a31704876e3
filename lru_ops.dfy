/**
 * What the cache operations guarantee: `put`, `add`, `get`, `remove`,
 * `getOrAdd` and `clear`, each of them over the states of `LruSpec`.
 */
module LruOps {
  import opened FileTree
  import opened LruSpec
  import opened LruTrim

  // ------------------------------------------------------------ sequences

  lemma {:induction false} WithoutConcat(a: seq<string>, b: seq<string>, k: string)
    ensures Without(a + b, k) == Without(a, k) + Without(b, k)
  {
    if a != [] {
      assert (a + b)[0] == a[0] && (a + b)[1..] == a[1..] + b;
      WithoutConcat(a[1..], b, k);
    } else {
      assert a + b == b;
    }
  }

  /** Touching a name twice is touching it once. */
  lemma PromoteTwice(keys: seq<string>, k: string)
    ensures Promote(Promote(keys, k), k) == Promote(keys, k)
    ensures Without(Promote(keys, k), k) == Without(keys, k)
  {
    WithoutConcat(Without(keys, k), [k], k);
    assert Without([k], k) == [];
    WithoutAbsent(Without(keys, k), k);
  }

  // ------------------------------------------------------------ put

  /** The state `put` hands to `trimToSize`. */
  function PutStage(c: Config, s: State, k: string): State
  {
    if k in s.keys then State(Promote(s.keys, k), s.total, EntryRemoved(c, s.disk, k))
    else State(s.keys + [k], s.total + EntrySize(c, s.disk, k), s.disk)
  }

  lemma PutStageBookkeeping(c: Config, s: State, k: string)
    requires Inv(c, s)
    ensures var t := PutStage(c, s, k);
      && Put(c, s, k) == TrimToSize(c, t, c.capacity)
      && t.keys == Promote(s.keys, k)
      && Distinct(t.keys) && t.total >= SumSizes(c, t.disk, t.keys)
      && (!c.cntByte ==> t.total == |t.keys|)
      && (k !in s.keys && Consistent(c, s) ==> Consistent(c, t))
  {
    var t := PutStage(c, s, k);
    PromoteDistinct(s.keys, k);
    if k in s.keys {
      var w := Without(s.keys, k);
      SumSizesWithout(c, s.disk, s.keys, k);
      SumSizesAfterRemoval(c, s.disk, k, w);
      SumSizesAppend(c, t.disk, w, k);
      EntrySizeAfterRemoval(c, s.disk, k);
    } else {
      WithoutAbsent(s.keys, k);
      SumSizesAppend(c, s.disk, s.keys, k);
    }
  }

  /**
   * `put` keeps the invariant; what stays registered is a suffix of the
   * access order with `k` promoted, and the only exception is a total left
   * non-zero with nothing registered.
   */
  lemma PutInv(c: Config, s: State, k: string)
    requires Inv(c, s)
    ensures var r := Put(c, s, k);
      && Inv(c, r.st)
      && (r.ok <==> (r.st.keys != [] || r.st.total == 0))
      && |r.st.keys| <= |Promote(s.keys, k)|
      && r.st.keys == Promote(s.keys, k)[|Promote(s.keys, k)| - |r.st.keys|..]
      && (forall x :: x in r.st.keys ==> x in s.keys || x == k)
  {
    var t := PutStage(c, s, k);
    PutStageBookkeeping(c, s, k);
    TrimInv(c, t, c.capacity);
    TrimKeepsSuffix(c, t, c.capacity);
  }

  /** In count mode `put` never throws, keeps the `capacity` newest names, and `k` is the newest. */
  lemma PutCount(c: Config, s: State, k: string)
    requires Inv(c, s) && !c.cntByte
    ensures var r := Put(c, s, k);
      && r.ok
      && r.st.keys == Newest(Promote(s.keys, k), c.capacity)
      && 1 <= |r.st.keys| <= c.capacity
      && r.st.keys[|r.st.keys| - 1] == k
  {
    var t := PutStage(c, s, k);
    PutStageBookkeeping(c, s, k);
    TrimCount(c, t, c.capacity);
  }

  /**
   * With an exact total, putting a new name whose folder fits never throws,
   * keeps the total exact and leaves the new name the newest.
   */
  lemma PutNewFits(c: Config, s: State, k: string)
    requires Inv(c, s) && Consistent(c, s) && k !in s.keys
    requires EntrySize(c, s.disk, k) <= c.capacity
    ensures var r := Put(c, s, k);
      && r.ok && Consistent(c, r.st)
      && r.st.keys != [] && r.st.keys[|r.st.keys| - 1] == k
  {
    var t := PutStage(c, s, k);
    PutStageBookkeeping(c, s, k);
    TrimConsistent(c, t, c.capacity);
    TrimKeepsNewest(c, t, c.capacity);
    TrimKeepsSuffix(c, t, c.capacity);
  }

  /** With an exact total, putting a new name never throws and keeps the total exact. */
  lemma PutNewConsistent(c: Config, s: State, k: string)
    requires Inv(c, s) && Consistent(c, s) && k !in s.keys
    ensures Put(c, s, k).ok && Consistent(c, Put(c, s, k).st)
  {
    PutStageBookkeeping(c, s, k);
    TrimConsistent(c, PutStage(c, s, k), c.capacity);
  }

  /** An entry bigger than the whole capacity empties the cache and is itself deleted at once. */
  lemma PutTooBig(c: Config, s: State, k: string)
    requires Inv(c, s) && k !in s.keys
    requires EntrySize(c, s.disk, k) > c.capacity
    ensures var r := Put(c, s, k);
      && r.st.keys == []
      && Lookup(r.st.disk, Folder(c, k)).None?
  {
    var t := PutStage(c, s, k);
    PutStageBookkeeping(c, s, k);
    TrimTooBig(c, t, c.capacity);
    TrimDeletesDropped(c, t, c.capacity, k);
  }

  /**
   * A name that leaves the map through `put` has its folder deleted, and so
   * does a name that `put` replaces, although it stays registered.
   */
  lemma PutDeletes(c: Config, s: State, k: string, x: string)
    requires Inv(c, s)
    requires ((x in s.keys || x == k) && x !in Put(c, s, k).st.keys) || (x == k && k in s.keys)
    ensures Lookup(Put(c, s, k).st.disk, Folder(c, x)).None?
  {
    var t := PutStage(c, s, k);
    PutStageBookkeeping(c, s, k);
    if x !in Put(c, s, k).st.keys {
      TrimDeletesDropped(c, t, c.capacity, x);
    } else {
      EntrySizeAfterRemoval(c, s.disk, k);
      TrimKeepsMissing(c, t, c.capacity, Folder(c, k));
    }
  }

  /** Every other name that stays registered through `put` keeps its folder as it was. */
  lemma PutKeepsSurvivors(c: Config, s: State, k: string, x: string)
    requires Inv(c, s) && x != k && x in Put(c, s, k).st.keys
    ensures Lookup(Put(c, s, k).st.disk, Folder(c, x)) == Lookup(s.disk, Folder(c, x))
  {
    var t := PutStage(c, s, k);
    PutStageBookkeeping(c, s, k);
    var r := TrimToSize(c, t, c.capacity);
    assert Lookup(t.disk, Folder(c, x)) == Lookup(s.disk, Folder(c, x)) by {
      FoldersApart(c, k, x);
      DeletedApart(s.disk, Folder(c, k), true, Folder(c, x));
    }
    assert x !in Evicted(t, r) by {
      TrimKeepsSuffix(c, t, c.capacity);
      var n := |t.keys| - |r.st.keys|;
      var j :| 0 <= j < |r.st.keys| && r.st.keys[j] == x;
      assert t.keys[n + j] == x;
    }
    forall y | y in t.keys && y in Evicted(t, r) ensures Apart(Folder(c, y), Folder(c, x)) {
      FoldersApart(c, y, x);
    }
    TrimFrame(c, t, c.capacity, Folder(c, x));
  }

  /** `put` never makes a missing path exist. */
  lemma PutKeepsMissing(c: Config, s: State, k: string, q: Path)
    requires Lookup(s.disk, q).None?
    ensures Lookup(Put(c, s, k).st.disk, q).None?
  {
    var t := PutStage(c, s, k);
    assert Put(c, s, k) == TrimToSize(c, t, c.capacity);
    DeletedKeepsMissing(s.disk, Folder(c, k), true, q);
    TrimKeepsMissing(c, t, c.capacity, q);
  }

  /** `put` touches nothing on disk apart from the folders of the names involved. */
  lemma PutFrame(c: Config, s: State, k: string, q: Path)
    requires Inv(c, s)
    requires Apart(Folder(c, k), q) && forall x :: x in s.keys ==> Apart(Folder(c, x), q)
    ensures Lookup(Put(c, s, k).st.disk, q) == Lookup(s.disk, q)
  {
    var t := PutStage(c, s, k);
    PutStageBookkeeping(c, s, k);
    DeletedApart(s.disk, Folder(c, k), true, q);
    TrimFrame(c, t, c.capacity, q);
  }

  // ------------------------------------------------------------ add

  /** Making the folder changes no size `sizeOf` reports: a new folder is empty. */
  lemma MakeFolderEntrySize(c: Config, disk: Node, k: string, x: string)
    ensures EntrySize(c, MakeFolder(c, disk, k), x) == EntrySize(c, disk, x)
  {
    var f := Folder(c, k);
    if Lookup(disk, f).None? && Mkdirs(disk, f).Some? {
      MkdirsMakesDir(disk, f);
      if x == k {
        FileSizeCases(Lookup(MakeFolder(c, disk, k), f));
      } else {
        FoldersApart(c, k, x);
        MkdirsApart(disk, f, Folder(c, x));
      }
    }
  }

  lemma MakeFolderSums(c: Config, disk: Node, k: string, keys: seq<string>)
    ensures SumSizes(c, MakeFolder(c, disk, k), keys) == SumSizes(c, disk, keys)
  {
    forall x | x in keys ensures EntrySize(c, disk, x) == EntrySize(c, MakeFolder(c, disk, k), x) {
      MakeFolderEntrySize(c, disk, k, x);
    }
    SumSizesFrame(c, disk, MakeFolder(c, disk, k), keys);
  }

  /**
   * The `mkdirs` step of `add`: afterwards the folder exists exactly when it
   * existed before or no prefix of its path is a regular file; a folder
   * that was missing and is created is an empty directory; a folder that
   * existed is left alone; nothing apart from the folder's path changes.
   */
  lemma MakeFolderSpec(c: Config, disk: Node, k: string, q: Path)
    ensures var f := Folder(c, k);
      && (Lookup(MakeFolder(c, disk, k), f).Some? <==>
          Lookup(disk, f).Some? || forall i :: 0 <= i <= |f| ==> !IsFileAt(disk, f[..i]))
      && (Lookup(disk, f).None? && Lookup(MakeFolder(c, disk, k), f).Some? ==>
          Lookup(MakeFolder(c, disk, k), f) == Some(Dir(map[])))
      && (Lookup(disk, f).Some? ==> MakeFolder(c, disk, k) == disk)
      && (Apart(f, q) ==> Lookup(MakeFolder(c, disk, k), q) == Lookup(disk, q))
  {
    var f := Folder(c, k);
    MkdirsSucceedsIff(disk, f);
    if Lookup(disk, f).None? && Mkdirs(disk, f).Some? {
      MkdirsMakesDir(disk, f);
      if Apart(f, q) {
        MkdirsApart(disk, f, q);
      }
    }
  }

  /** Under a root directory, `add` of a name whose folder is missing creates it empty. */
  lemma MakeFolderUnderRoot(c: Config, disk: Node, k: string)
    requires IsDirAt(disk, c.root) && Lookup(disk, Folder(c, k)).None?
    ensures Lookup(MakeFolder(c, disk, k), Folder(c, k)) == Some(Dir(map[]))
  {
    MkdirsChild(disk, c.root, k);
    LookupUpdateChild(disk, c.root, k, Some(Dir(map[])));
  }

  /** `add` keeps the invariant, like the `put` it ends with. */
  lemma AddInv(c: Config, s: State, k: string)
    requires Inv(c, s)
    ensures var r := Add(c, s, k);
      && Inv(c, r.st)
      && (r.ok <==> (r.st.keys != [] || r.st.total == 0))
      && |r.st.keys| <= |Promote(s.keys, k)|
      && r.st.keys == Promote(s.keys, k)[|Promote(s.keys, k)| - |r.st.keys|..]
  {
    MakeFolderSums(c, s.disk, k, s.keys);
    PutInv(c, State(s.keys, s.total, MakeFolder(c, s.disk, k)), k);
  }

  /**
   * In count mode `add` never throws, keeps at most `capacity` names (the
   * newest ones), and the added name is the newest: it is never the one
   * evicted.
   */
  lemma AddCount(c: Config, s: State, k: string)
    requires Inv(c, s) && !c.cntByte
    ensures var r := Add(c, s, k);
      && r.ok
      && r.st.keys == Newest(Promote(s.keys, k), c.capacity)
      && 1 <= |r.st.keys| <= c.capacity
      && r.st.keys[|r.st.keys| - 1] == k
  {
    MakeFolderSums(c, s.disk, k, s.keys);
    PutCount(c, State(s.keys, s.total, MakeFolder(c, s.disk, k)), k);
  }

  /**
   * A new name that `put` keeps is the newest, and the trimming after it
   * never touches its folder.
   */
  lemma PutNewKeepsFolder(c: Config, s: State, k: string)
    requires Inv(c, s) && k !in s.keys && Put(c, s, k).st.keys != []
    ensures var r := Put(c, s, k);
      && r.st.keys[|r.st.keys| - 1] == k
      && Lookup(r.st.disk, Folder(c, k)) == Lookup(s.disk, Folder(c, k))
  {
    var u := PutStage(c, s, k);
    PutStageBookkeeping(c, s, k);
    WithoutAbsent(s.keys, k);
    var r := TrimToSize(c, u, c.capacity);
    TrimKeepsSuffix(c, u, c.capacity);
    forall x | x in u.keys && x in Evicted(u, r) ensures Apart(Folder(c, x), Folder(c, k)) {
      var i :| 0 <= i < |Evicted(u, r)| && Evicted(u, r)[i] == x;
      assert x == s.keys[i];
      FoldersApart(c, x, k);
    }
    TrimFrame(c, u, c.capacity, Folder(c, k));
  }

  /**
   * Adding a new name whose folder is missing under the root directory
   * creates that folder empty, registers the name as the newest, and (with
   * an exact total in byte mode) never throws.
   */
  lemma AddCreatesFolder(c: Config, s: State, k: string)
    requires Inv(c, s) && k !in s.keys
    requires IsDirAt(s.disk, c.root) && Lookup(s.disk, Folder(c, k)).None?
    requires !c.cntByte || Consistent(c, s)
    ensures var r := Add(c, s, k);
      && r.ok
      && r.st.keys != [] && r.st.keys[|r.st.keys| - 1] == k
      && Lookup(r.st.disk, Folder(c, k)) == Some(Dir(map[]))
      && (Consistent(c, s) ==> Consistent(c, r.st))
  {
    var t := State(s.keys, s.total, MakeFolder(c, s.disk, k));
    assert Add(c, s, k) == Put(c, t, k);
    assert Inv(c, t) && (Consistent(c, s) ==> Consistent(c, t)) by {
      MakeFolderSums(c, s.disk, k, s.keys);
    }
    assert Lookup(t.disk, Folder(c, k)) == Some(Dir(map[])) by {
      MakeFolderUnderRoot(c, s.disk, k);
    }
    assert EntrySize(c, t.disk, k) == 0 || !c.cntByte by {
      FileSizeCases(Lookup(t.disk, Folder(c, k)));
    }
    if !c.cntByte {
      PutCount(c, t, k);
    }
    if Consistent(c, s) {
      PutNewFits(c, t, k);
    }
    PutNewKeepsFolder(c, t, k);
  }

  /**
   * `add` of a name already registered (the second `add` of a name): the
   * name stays registered and becomes the newest, the total is unchanged,
   * but the replacement's `entryRemoved` deletes the very folder `add`
   * returns.
   */
  lemma AddExisting(c: Config, s: State, k: string)
    requires Inv(c, s) && k in s.keys
    ensures var r := Add(c, s, k);
      && r.ok
      && r.st.keys == Promote(s.keys, k)
      && r.st.total == s.total
      && Lookup(r.st.disk, Folder(c, k)).None?
  {
    var t := State(s.keys, s.total, MakeFolder(c, s.disk, k));
    MakeFolderSums(c, s.disk, k, s.keys);
    PutStageBookkeeping(c, t, k);
    PutDeletes(c, t, k, k);
  }

  /** `add` touches nothing on disk apart from the folders of the names involved. */
  lemma AddFrame(c: Config, s: State, k: string, q: Path)
    requires Inv(c, s)
    requires Apart(Folder(c, k), q) && forall x :: x in s.keys ==> Apart(Folder(c, x), q)
    ensures Lookup(Add(c, s, k).st.disk, q) == Lookup(s.disk, q)
  {
    MakeFolderSpec(c, s.disk, k, q);
    MakeFolderSums(c, s.disk, k, s.keys);
    PutFrame(c, State(s.keys, s.total, MakeFolder(c, s.disk, k)), k, q);
  }

  /** The root stays a directory through `add`. */
  lemma AddKeepsRootDir(c: Config, s: State, k: string)
    requires IsDirAt(s.disk, c.root)
    ensures IsDirAt(Add(c, s, k).st.disk, c.root)
  {
    var d := MakeFolder(c, s.disk, k);
    if Lookup(s.disk, Folder(c, k)).None? {
      MkdirsChild(s.disk, c.root, k);
      LookupUpdateChild(s.disk, c.root, k, Some(Dir(map[])));
    }
    var t := PutStage(c, State(s.keys, s.total, d), k);
    assert Add(c, s, k) == TrimToSize(c, t, c.capacity);
    LookupUpdateChild(d, c.root, k, None);
    TrimKeepsRootDir(c, t, c.capacity);
  }

  /** Every other name that stays registered through `add` keeps its folder as it was. */
  lemma AddKeepsSurvivors(c: Config, s: State, k: string, x: string)
    requires Inv(c, s) && x != k && x in Add(c, s, k).st.keys
    ensures Lookup(Add(c, s, k).st.disk, Folder(c, x)) == Lookup(s.disk, Folder(c, x))
  {
    FoldersApart(c, k, x);
    MakeFolderSpec(c, s.disk, k, Folder(c, x));
    MakeFolderSums(c, s.disk, k, s.keys);
    PutKeepsSurvivors(c, State(s.keys, s.total, MakeFolder(c, s.disk, k)), k, x);
  }

  /**
   * What `add(k)` does to the folder of another name: kept when the name
   * stays registered, deleted when `add` evicts it, untouched when it was
   * never registered.
   */
  lemma AddFolders(c: Config, s: State, k: string, x: string)
    requires Inv(c, s) && x != k
    ensures var r := Add(c, s, k);
      && (x in r.st.keys ==> Lookup(r.st.disk, Folder(c, x)) == Lookup(s.disk, Folder(c, x)))
      && (x in s.keys && x !in r.st.keys ==> Lookup(r.st.disk, Folder(c, x)).None?)
      && (x !in s.keys ==> x !in r.st.keys && Lookup(r.st.disk, Folder(c, x)) == Lookup(s.disk, Folder(c, x)))
  {
    var r := Add(c, s, k);
    var t := State(s.keys, s.total, MakeFolder(c, s.disk, k));
    AddInv(c, s, k);
    MakeFolderSums(c, s.disk, k, s.keys);
    PutInv(c, t, k);
    if x in r.st.keys {
      AddKeepsSurvivors(c, s, k, x);
    } else if x in s.keys {
      PutDeletes(c, t, k, x);
    } else {
      forall y | y in s.keys ensures Apart(Folder(c, y), Folder(c, x)) {
        FoldersApart(c, y, x);
      }
      FoldersApart(c, k, x);
      AddFrame(c, s, k, Folder(c, x));
    }
  }

  // ------------------------------------------------------------ the corrected replacement

  /**
   * `put` with an override that deletes the old folder only when the new
   * value is a different folder: a replacement by the same folder keeps it.
   */
  function PutKeepingSame(c: Config, s: State, k: string): Outcome
  {
    if k in s.keys then TrimToSize(c, State(Promote(s.keys, k), s.total, s.disk), c.capacity)
    else Put(c, s, k)
  }

  /** `add` over that `put`. */
  function AddKeepingFolder(c: Config, s: State, k: string): Outcome
  {
    PutKeepingSame(c, State(s.keys, s.total, MakeFolder(c, s.disk, k)), k)
  }

  /**
   * With the corrected override, `add` of a registered name promotes it,
   * never throws, keeps the total exact, and leaves its folder in place
   * (created when it was missing under the root directory).
   */
  lemma AddKeepingFolderCorrect(c: Config, s: State, k: string)
    requires Inv(c, s) && Consistent(c, s) && k in s.keys
    ensures var r := AddKeepingFolder(c, s, k);
      && r.ok && Consistent(c, r.st) && Inv(c, r.st)
      && r.st.keys == Promote(s.keys, k)
      && Lookup(r.st.disk, Folder(c, k)) == Lookup(MakeFolder(c, s.disk, k), Folder(c, k))
      && (IsDirAt(s.disk, c.root) ==> Lookup(r.st.disk, Folder(c, k)).Some?)
  {
    var d := MakeFolder(c, s.disk, k);
    MakeFolderSums(c, s.disk, k, s.keys);
    var w := Without(s.keys, k);
    PromoteDistinct(s.keys, k);
    SumSizesWithout(c, d, s.keys, k);
    SumSizesAppend(c, d, w, k);
    if IsDirAt(s.disk, c.root) && Lookup(s.disk, Folder(c, k)).None? {
      MakeFolderUnderRoot(c, s.disk, k);
    }
  }

  /**
   * The corrected `add` never throws and keeps the invariant and an exact
   * total; for a name not yet registered it is `add` as written.
   */
  lemma AddKeepingFolderKeeps(c: Config, s: State, k: string)
    requires Inv(c, s) && Consistent(c, s)
    ensures var r := AddKeepingFolder(c, s, k);
      && r.ok && Inv(c, r.st) && Consistent(c, r.st)
      && (k !in s.keys ==> r == Add(c, s, k))
  {
    if k in s.keys {
      AddKeepingFolderCorrect(c, s, k);
    } else {
      var t := State(s.keys, s.total, MakeFolder(c, s.disk, k));
      MakeFolderSums(c, s.disk, k, s.keys);
      PutNewConsistent(c, t, k);
      PutInv(c, t, k);
    }
  }

  // ------------------------------------------------------------ get, remove, getOrAdd

  /**
   * `get`: a hit returns the folder and only makes the name the newest (the
   * same names, the same total, the same disk); a miss returns nothing and
   * changes nothing. Either way the invariant and an exact total survive.
   */
  lemma GetSpec(c: Config, s: State, k: string)
    requires Inv(c, s)
    ensures var r := Get(c, s, k);
      && (k in s.keys ==>
          && r.folder == Some(Folder(c, k))
          && r.st.disk == s.disk && r.st.total == s.total
          && (forall x :: x in r.st.keys <==> x in s.keys)
          && |r.st.keys| == |s.keys|
          && r.st.keys[|r.st.keys| - 1] == k
          && Without(r.st.keys, k) == Without(s.keys, k))
      && (k !in s.keys ==> r == Reply(s, None))
      && Inv(c, r.st)
      && (Consistent(c, s) ==> Consistent(c, r.st))
  {
    if k in s.keys {
      var w := Without(s.keys, k);
      PromoteDistinct(s.keys, k);
      PromoteTwice(s.keys, k);
      SumSizesWithout(c, s.disk, s.keys, k);
      SumSizesAppend(c, s.disk, w, k);
    }
  }

  /** A second `get` of the same name changes nothing more. */
  lemma GetIdempotent(c: Config, s: State, k: string)
    ensures Get(c, Get(c, s, k).st, k) == Get(c, s, k)
  {
    PromoteTwice(s.keys, k);
  }

  /**
   * `remove`: a registered name is unregistered (the others keep their
   * order), its size is subtracted and its folder deleted; the invariant
   * and an exact total survive; a miss changes nothing.
   */
  lemma RemoveSpec(c: Config, s: State, k: string)
    requires Inv(c, s)
    ensures var r := Remove(c, s, k);
      && (k in s.keys ==>
          && r.folder == Some(Folder(c, k))
          && r.st.keys == Without(s.keys, k)
          && |r.st.keys| == |s.keys| - 1
          && r.st.total <= s.total
          && Lookup(r.st.disk, Folder(c, k)).None?)
      && (k !in s.keys ==> r == Reply(s, None))
      && Inv(c, r.st)
      && (Consistent(c, s) ==> Consistent(c, r.st))
  {
    if k in s.keys {
      WithoutDistinct(s.keys, k);
      SumSizesWithout(c, s.disk, s.keys, k);
      SumSizesAfterRemoval(c, s.disk, k, Without(s.keys, k));
      EntrySizeAfterRemoval(c, s.disk, k);
    }
  }

  /** `remove` touches nothing on disk outside the removed name's folder. */
  lemma RemoveFrame(c: Config, s: State, k: string, q: Path)
    requires Apart(Folder(c, k), q)
    ensures Lookup(Remove(c, s, k).st.disk, q) == Lookup(s.disk, q)
  {
    DeletedApart(s.disk, Folder(c, k), true, q);
  }

  /**
   * `getOrAdd`: a registered name is a `get` (nothing changes but the
   * order, and its folder is not deleted, unlike a second `add`); any other
   * name is an `add`. Either way the invariant survives.
   */
  lemma GetOrAddSpec(c: Config, s: State, k: string)
    requires Inv(c, s)
    ensures var r := GetOrAdd(c, s, k);
      && (k in s.keys ==>
          && r.ok && r.st.keys == Promote(s.keys, k)
          && r.st.total == s.total && r.st.disk == s.disk)
      && (k !in s.keys ==> r == Add(c, s, k))
      && Inv(c, r.st)
      && (r.ok <==> (r.st.keys != [] || r.st.total == 0))
  {
    GetSpec(c, s, k);
    AddInv(c, s, k);
  }

  /**
   * After `getOrAdd` the name is registered as the newest and its folder
   * exists: created empty when the name was new and its folder missing
   * under the root directory (given an exact total in byte mode).
   */
  lemma GetOrAddNewest(c: Config, s: State, k: string)
    requires Inv(c, s) && IsDirAt(s.disk, c.root)
    requires k in s.keys || Lookup(s.disk, Folder(c, k)).None?
    requires !c.cntByte || Consistent(c, s)
    ensures var r := GetOrAdd(c, s, k);
      && r.ok
      && r.st.keys != [] && r.st.keys[|r.st.keys| - 1] == k
      && (k !in s.keys ==> Lookup(r.st.disk, Folder(c, k)) == Some(Dir(map[])))
      && (k in s.keys ==> r.st.disk == s.disk)
  {
    if k in s.keys {
      GetSpec(c, s, k);
    } else {
      AddCreatesFolder(c, s, k);
    }
  }

  // ------------------------------------------------------------ clear

  lemma {:induction false} SumSizesMissing(c: Config, d: Node, keys: seq<string>)
    requires c.cntByte && forall x :: x in keys ==> Lookup(d, Folder(c, x)).None?
    ensures SumSizes(c, d, keys) == 0
  {
    if keys != [] {
      SumSizesMissing(c, d, keys[1..]);
    }
  }

  lemma ClearedFolders(c: Config, s: State)
    ensures forall x :: Lookup(Deleted(s.disk, c.root, false), Folder(c, x)).None?
  {
    forall x ensures Lookup(Deleted(s.disk, c.root, false), Folder(c, x)).None? {
      DeletedBelow(s.disk, c.root, false, Folder(c, x));
    }
  }

  /** A path apart from the root is apart from every folder below it. */
  lemma ApartFromFolders(c: Config, q: Path)
    requires Apart(c.root, q)
    ensures forall x :: Apart(Folder(c, x), q)
  {
    forall x ensures Apart(Folder(c, x), q) {
      assert Folder(c, x)[..|c.root|] == c.root;
    }
  }

  /**
   * `clear()` as written: the map ends empty, the root (when it is a
   * directory) ends empty, nothing outside the root changes. In count mode
   * the total ends 0. In byte mode the folders are gone before `evictAll`
   * asks for their sizes, so nothing is subtracted: the total keeps its
   * value and `evictAll` throws exactly when that value is not 0.
   */
  lemma ClearSpec(c: Config, s: State, q: Path)
    requires Inv(c, s)
    ensures var r := Clear(c, s);
      && r.st.keys == []
      && (IsDirAt(s.disk, c.root) ==> Lookup(r.st.disk, c.root) == Some(Dir(map[])))
      && (Apart(c.root, q) ==> Lookup(r.st.disk, q) == Lookup(s.disk, q))
      && (!c.cntByte ==> r.ok && r.st.total == 0)
      && (c.cntByte ==> r.st.total == s.total && (r.ok <==> s.total == 0))
  {
    var t := State(s.keys, s.total, Deleted(s.disk, c.root, false));
    ClearedFolders(c, s);
    TrimMissingFolders(c, t, -1);
    if c.cntByte {
      SumSizesMissing(c, t.disk, s.keys);
      TrimInv(c, t, -1);
    } else {
      TrimCount(c, t, -1);
    }
    if IsDirAt(s.disk, c.root) {
      LookupUpdateAt(s.disk, c.root, Some(Dir(map[])));
    }
    if Apart(c.root, q) {
      DeletedApart(s.disk, c.root, false, q);
    }
  }

  /** The evidently intended `clear()`: evicting first, it always ends empty with a total of 0. */
  lemma ClearEvictingFirstCorrect(c: Config, s: State, q: Path)
    requires Inv(c, s) && Consistent(c, s)
    ensures var r := ClearEvictingFirst(c, s);
      && r.ok && r.st.keys == [] && r.st.total == 0
      && (IsDirAt(s.disk, c.root) ==> Lookup(r.st.disk, c.root) == Some(Dir(map[])))
      && (Apart(c.root, q) ==> Lookup(r.st.disk, q) == Lookup(s.disk, q))
  {
    var o := TrimToSize(c, s, -1);
    TrimConsistent(c, s, -1);
    TrimInv(c, s, -1);
    if IsDirAt(s.disk, c.root) {
      TrimKeepsRootDir(c, s, -1);
      LookupUpdateAt(o.st.disk, c.root, Some(Dir(map[])));
    }
    if Apart(c.root, q) {
      ApartFromFolders(c, q);
      TrimFrame(c, s, -1, q);
      DeletedApart(o.st.disk, c.root, false, q);
    }
  }

  /** In byte mode a cache holding any bytes makes `clear()` throw, and the total is never reset. */
  lemma ClearThrows(c: Config, s: State)
    requires Inv(c, s) && c.cntByte && s.total > 0
    ensures !Clear(c, s).ok && Clear(c, s).st.total == s.total && Clear(c, s).st.keys == []
  {
    ClearSpec(c, s, []);
  }
}
