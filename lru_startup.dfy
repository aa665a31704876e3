/**
 * What `createCache` guarantees: the listing, the sort by last-modified
 * time, the seeding `put` loop, and the state the cache starts from; and
 * two concrete runs, one of them the demo program's.
 */
module LruStartup {
  import opened FileTree
  import opened StringOrder
  import opened LruSpec
  import opened LruTrim
  import opened LruOps

  /** `a` is what remains of `b` after dropping some of its first elements. */
  predicate IsSuffix(a: seq<string>, b: seq<string>)
  {
    |a| <= |b| && a == b[|b| - |a|..]
  }

  lemma SuffixMembers(a: seq<string>, b: seq<string>, mtime: string -> int)
    requires IsSuffix(a, b)
    ensures forall x :: x in a ==> x in b
    ensures SortedByMtime(b, mtime) ==> SortedByMtime(a, mtime)
  {
    forall x | x in a ensures x in b {
      var i :| 0 <= i < |a| && a[i] == x;
      assert b[|b| - |a| + i] == x;
    }
  }

  lemma SuffixAppend(a: seq<string>, b: seq<string>, rest: seq<string>)
    requires IsSuffix(a, b)
    ensures IsSuffix(a + rest, b + rest)
  {
    assert (b + rest)[|b| - |a|..] == b[|b| - |a|..] + rest;
  }

  lemma SuffixTrans(a: seq<string>, b: seq<string>, d: seq<string>)
    requires IsSuffix(a, b) && IsSuffix(b, d)
    ensures IsSuffix(a, d)
  {
    assert d[|d| - |b|..][|b| - |a|..] == d[|d| - |a|..];
  }

  lemma AppendFirst(a: seq<string>, order: seq<string>)
    requires order != []
    ensures a + [order[0]] + order[1..] == a + order
  {
    assert [order[0]] + order[1..] == order;
  }

  /** Keeping the `n` newest twice, with more names appended in between, is keeping them once. */
  lemma NewestAppend(a: seq<string>, b: seq<string>, n: int)
    ensures Newest(Newest(a, n) + b, n) == Newest(a + b, n)
  {
    if n > 0 && |a| > n {
      var x := a[|a| - n..];
      assert x + b == (a + b)[|a| - n..];
      assert (a + b)[|a| - n..][|x + b| - n..] == (a + b)[|a + b| - n..];
    }
  }

  // ------------------------------------------------------------ sort

  lemma {:induction false} InsertMultiset(x: string, sorted: seq<string>, mtime: string -> int)
    ensures multiset(InsertByMtime(x, sorted, mtime)) == multiset([x]) + multiset(sorted)
  {
    if sorted != [] && mtime(x) > mtime(sorted[0]) {
      InsertMultiset(x, sorted[1..], mtime);
      assert sorted == [sorted[0]] + sorted[1..];
    }
  }

  lemma {:induction false} InsertSorted(x: string, sorted: seq<string>, mtime: string -> int)
    requires SortedByMtime(sorted, mtime)
    ensures SortedByMtime(InsertByMtime(x, sorted, mtime), mtime)
  {
    if sorted != [] && mtime(x) > mtime(sorted[0]) {
      var rest := InsertByMtime(x, sorted[1..], mtime);
      InsertSorted(x, sorted[1..], mtime);
      InsertMultiset(x, sorted[1..], mtime);
      forall i | 0 <= i < |rest| ensures mtime(sorted[0]) <= mtime(rest[i]) {
        assert rest[i] in multiset(rest);
        if rest[i] != x {
          assert rest[i] in sorted[1..];
        }
      }
    }
  }

  lemma {:induction false} InsertDistinct(x: string, sorted: seq<string>, mtime: string -> int)
    requires Distinct(sorted) && x !in sorted
    ensures Distinct(InsertByMtime(x, sorted, mtime))
  {
    if sorted != [] && mtime(x) > mtime(sorted[0]) {
      var rest := InsertByMtime(x, sorted[1..], mtime);
      InsertDistinct(x, sorted[1..], mtime);
      InsertMultiset(x, sorted[1..], mtime);
      assert sorted[0] !in sorted[1..];
      assert sorted[0] !in multiset(rest);
    }
  }

  lemma MultisetFirst(xs: seq<string>)
    requires xs != []
    ensures multiset(xs) == multiset([xs[0]]) + multiset(xs[1..])
    ensures Distinct(xs) ==> Distinct(xs[1..]) && xs[0] !in multiset(xs[1..])
  {
    assert xs == [xs[0]] + xs[1..];
  }

  /**
   * `Arrays.sort` by last-modified time: the result is in ascending mtime
   * order, holds exactly the same names, and keeps them distinct.
   */
  lemma {:induction false} SortSpec(xs: seq<string>, mtime: string -> int)
    ensures SortedByMtime(SortByMtime(xs, mtime), mtime)
    ensures multiset(SortByMtime(xs, mtime)) == multiset(xs)
    ensures Distinct(xs) ==> Distinct(SortByMtime(xs, mtime))
  {
    if xs != [] {
      var rest := SortByMtime(xs[1..], mtime);
      SortSpec(xs[1..], mtime);
      MultisetFirst(xs);
      InsertMultiset(xs[0], rest, mtime);
      InsertSorted(xs[0], rest, mtime);
      if Distinct(xs) {
        assert xs[0] !in multiset(rest);
        InsertDistinct(xs[0], rest, mtime);
      }
    }
  }

  /**
   * The comparator as written: two folders modified 2^32 ms (about 49.7
   * days) apart compare as equal both ways, so the sort keeps their listing
   * order and the newer one is put first, as the eldest. `SortByMtime`
   * orders them by time.
   */
  lemma TruncatedCompareMisorders(x: string, y: string, mtime: string -> int)
    requires mtime(x) == mtime(y) + 0x1_0000_0000
    ensures CompareAsWritten(x, y, mtime) == 0 && CompareAsWritten(y, x, mtime) == 0
    ensures SortAsWritten([x, y], mtime) == [x, y]
    ensures !SortedByMtime(SortAsWritten([x, y], mtime), mtime)
    ensures SortByMtime([x, y], mtime) == [y, x]
  {
    assert [x, y][1..] == [y];
    assert SortAsWritten([y], mtime) == [y];
    assert SortByMtime([y], mtime) == [y];
    assert InsertByMtime(x, [y], mtime) == [y] + InsertByMtime(x, [], mtime);
  }

  lemma {:induction false} AcceptedDistinct(names: seq<string>, ch: map<string, Node>, accept: (string, Node) -> bool)
    requires forall x :: x in names ==> x in ch
    requires Distinct(names)
    ensures Distinct(Accepted(names, ch, accept))
  {
    if names != [] {
      AcceptedDistinct(names[1..], ch, accept);
      assert names[0] !in names[1..];
    }
  }

  /** `listFiles(filter)`: each accepted child once, and nothing else. */
  lemma ListingSpec(ch: map<string, Node>, accept: (string, Node) -> bool)
    ensures Distinct(Listing(ch, accept))
    ensures forall x :: x in Listing(ch, accept) <==> x in ch && accept(x, ch[x])
  {
    AcceptedDistinct(Ascending(ch.Keys), ch, accept);
  }

  /** The order in which `createCache` puts the children: accepted ones only, oldest first. */
  lemma OrderSpec(ch: map<string, Node>, accept: (string, Node) -> bool, mtime: string -> int)
    ensures var order := SortByMtime(Listing(ch, accept), mtime);
      && Distinct(order) && SortedByMtime(order, mtime)
      && forall x :: x in order <==> x in ch && accept(x, ch[x])
  {
    ListingSpec(ch, accept);
    SortSpec(Listing(ch, accept), mtime);
    var order := SortByMtime(Listing(ch, accept), mtime);
    forall x ensures x in order <==> x in Listing(ch, accept) {
      assert x in order <==> x in multiset(order);
    }
  }

  // ------------------------------------------------------------ seeding

  /** The names still to be put are distinct and none is registered yet. */
  predicate Fresh(keys: seq<string>, order: seq<string>)
  {
    Distinct(order) && forall x :: x in order ==> x !in keys
  }

  lemma FreshAfterPut(c: Config, s: State, order: seq<string>)
    requires Inv(c, s) && order != [] && Fresh(s.keys, order)
    ensures Fresh(Put(c, s, order[0]).st.keys, order[1..])
    ensures IsSuffix(Put(c, s, order[0]).st.keys, s.keys + [order[0]])
  {
    PutInv(c, s, order[0]);
    WithoutAbsent(s.keys, order[0]);
    assert order[0] !in order[1..];
  }

  /** One step of seeding: the first name is put without throwing, and the rest are still fresh. */
  lemma SeedStep(c: Config, s: State, order: seq<string>) returns (t: State)
    requires Inv(c, s) && Consistent(c, s) && Fresh(s.keys, order) && order != []
    ensures t == Put(c, s, order[0]).st
    ensures Seed(c, s, order) == Seed(c, t, order[1..])
    ensures Inv(c, t) && Consistent(c, t) && Fresh(t.keys, order[1..])
    ensures IsSuffix(t.keys, s.keys + [order[0]])
  {
    t := Put(c, s, order[0]).st;
    PutNewConsistent(c, s, order[0]);
    PutInv(c, s, order[0]);
    FreshAfterPut(c, s, order);
  }

  /**
   * Seeding from an exact state with fresh names never throws, keeps the
   * invariant and the exact total, and what stays registered is a suffix of
   * the old names followed by the new ones.
   */
  lemma {:induction false} SeedSpec(c: Config, s: State, order: seq<string>)
    requires Inv(c, s) && Consistent(c, s) && Fresh(s.keys, order)
    ensures var r := Seed(c, s, order);
      && r.ok && Inv(c, r.st) && Consistent(c, r.st)
      && IsSuffix(r.st.keys, s.keys + order)
    decreases |order|
  {
    if order != [] {
      var t := SeedStep(c, s, order);
      SeedSpec(c, t, order[1..]);
      var r := Seed(c, t, order[1..]);
      SuffixAppend(t.keys, s.keys + [order[0]], order[1..]);
      AppendFirst(s.keys, order);
      SuffixTrans(r.st.keys, t.keys + order[1..], s.keys + order);
    }
  }

  /** In count mode seeding keeps exactly the `capacity` newest names. */
  lemma {:induction false} SeedCount(c: Config, s: State, order: seq<string>)
    requires Inv(c, s) && !c.cntByte && Fresh(s.keys, order)
    ensures var r := Seed(c, s, order);
      r.ok && r.st.keys == Newest(s.keys + order, c.capacity)
    decreases |order|
  {
    if order == [] {
      assert s.keys + order == s.keys;
    } else {
      var k := order[0];
      var o := Put(c, s, k);
      assert o.ok && Inv(c, o.st) && o.st.keys == Newest(s.keys + [k], c.capacity) by {
        PutCount(c, s, k);
        PutInv(c, s, k);
        WithoutAbsent(s.keys, k);
      }
      assert Fresh(o.st.keys, order[1..]) by {
        FreshAfterPut(c, s, order);
      }
      assert Seed(c, s, order) == Seed(c, o.st, order[1..]);
      var r := Seed(c, o.st, order[1..]);
      assert r.ok && r.st.keys == Newest(o.st.keys + order[1..], c.capacity) by {
        SeedCount(c, o.st, order[1..]);
      }
      assert r.st.keys == Newest(s.keys + order, c.capacity) by {
        NewestAppend(s.keys + [k], order[1..], c.capacity);
        AppendFirst(s.keys, order);
      }
    }
  }

  lemma {:induction false} SeedKeepsMissing(c: Config, s: State, order: seq<string>, q: Path)
    requires Lookup(s.disk, q).None?
    ensures Lookup(Seed(c, s, order).st.disk, q).None?
    decreases |order|
  {
    if order != [] {
      PutKeepsMissing(c, s, order[0], q);
      SeedKeepsMissing(c, Put(c, s, order[0]).st, order[1..], q);
    }
  }

  /** Every name that seeding registers and drops again has its folder deleted. */
  lemma {:induction false} SeedDeletesDropped(c: Config, s: State, order: seq<string>, x: string)
    requires Inv(c, s) && Consistent(c, s) && Fresh(s.keys, order)
    requires (x in s.keys || x in order) && x !in Seed(c, s, order).st.keys
    ensures Lookup(Seed(c, s, order).st.disk, Folder(c, x)).None?
    decreases |order|
  {
    var o := Put(c, s, order[0]);
    PutNewConsistent(c, s, order[0]);
    PutInv(c, s, order[0]);
    FreshAfterPut(c, s, order);
    if x in o.st.keys || x in order[1..] {
      SeedDeletesDropped(c, o.st, order[1..], x);
    } else {
      assert x in s.keys || x == order[0];
      PutDeletes(c, s, order[0], x);
      SeedKeepsMissing(c, o.st, order[1..], Folder(c, x));
    }
  }

  /** Seeding touches nothing on disk apart from the folders of the names involved. */
  lemma {:induction false} SeedFrame(c: Config, s: State, order: seq<string>, q: Path)
    requires Inv(c, s) && Consistent(c, s) && Fresh(s.keys, order)
    requires forall x :: x in s.keys ==> Apart(Folder(c, x), q)
    requires forall x :: x in order ==> Apart(Folder(c, x), q)
    ensures Lookup(Seed(c, s, order).st.disk, q) == Lookup(s.disk, q)
    decreases |order|
  {
    if order != [] {
      var o := Put(c, s, order[0]);
      PutFrame(c, s, order[0], q);
      PutNewConsistent(c, s, order[0]);
      PutInv(c, s, order[0]);
      FreshAfterPut(c, s, order);
      SeedFrame(c, o.st, order[1..], q);
    }
  }

  // ------------------------------------------------------------ startup

  /** `createCache` never throws, and the cache starts with the invariant and an exact total. */
  lemma StartupOk(c: Config, disk: Node, accept: (string, Node) -> bool, mtime: string -> int)
    requires c.capacity >= 1
    ensures var r := Startup(c, disk, accept, mtime);
      r.ok && Inv(c, r.st) && Consistent(c, r.st)
  {
    if Lookup(disk, c.root).Some? && Lookup(disk, c.root).value.Dir? {
      var ch := Lookup(disk, c.root).value.children;
      OrderSpec(ch, accept, mtime);
      SeedSpec(c, State([], 0, disk), SortByMtime(Listing(ch, accept), mtime));
    }
  }

  /**
   * A missing root: the cache starts empty, and the root exists afterwards
   * as a directory exactly when no prefix of its path is a regular file.
   */
  lemma StartupMissingRoot(c: Config, disk: Node, accept: (string, Node) -> bool, mtime: string -> int)
    requires Lookup(disk, c.root).None?
    ensures var r := Startup(c, disk, accept, mtime);
      && r.st.keys == [] && r.st.total == 0
      && (IsDirAt(r.st.disk, c.root) <==> forall i :: 0 <= i <= |c.root| ==> !IsFileAt(disk, c.root[..i]))
  {
    MkdirsSucceedsIff(disk, c.root);
    if Mkdirs(disk, c.root).Some? {
      MkdirsMakesDir(disk, c.root);
    }
  }

  /** A root that is a regular file lists as nothing: the cache starts empty and the disk is untouched. */
  lemma StartupRootIsFile(c: Config, disk: Node, accept: (string, Node) -> bool, mtime: string -> int)
    requires IsFileAt(disk, c.root)
    ensures Startup(c, disk, accept, mtime) == Outcome(State([], 0, disk), true)
  {
  }

  /** On a root directory, `createCache` is the seeding of its sorted, accepted children. */
  lemma StartupIsSeed(c: Config, disk: Node, ch: map<string, Node>, accept: (string, Node) -> bool, mtime: string -> int)
    requires Lookup(disk, c.root) == Some(Dir(ch))
    ensures Startup(c, disk, accept, mtime) == Seed(c, State([], 0, disk), SortByMtime(Listing(ch, accept), mtime))
  {
  }

  /**
   * A root directory: only accepted children are registered, in ascending
   * mtime order, and the ones registered are the newest of them (the eldest
   * went first); in count mode exactly the `capacity` newest remain.
   */
  lemma StartupFromDir(c: Config, disk: Node, ch: map<string, Node>, accept: (string, Node) -> bool, mtime: string -> int)
    requires c.capacity >= 1 && Lookup(disk, c.root) == Some(Dir(ch))
    ensures var r := Startup(c, disk, accept, mtime);
      var order := SortByMtime(Listing(ch, accept), mtime);
      && (forall x :: x in r.st.keys ==> x in ch && accept(x, ch[x]))
      && SortedByMtime(r.st.keys, mtime)
      && IsSuffix(r.st.keys, order)
      && (!c.cntByte ==> r.st.keys == Newest(order, c.capacity))
  {
    var order := SortByMtime(Listing(ch, accept), mtime);
    var s := State([], 0, disk);
    StartupIsSeed(c, disk, ch, accept, mtime);
    OrderSpec(ch, accept, mtime);
    assert s.keys + order == order;
    SeedSpec(c, s, order);
    if !c.cntByte {
      SeedCount(c, s, order);
    }
    SuffixMembers(Seed(c, s, order).st.keys, order, mtime);
  }

  /**
   * A root directory: an accepted child that is not kept has its folder
   * deleted; a rejected child is never registered and its folder is left as
   * it was, and so is everything outside the root.
   */
  lemma StartupDisk(c: Config, disk: Node, ch: map<string, Node>, accept: (string, Node) -> bool, mtime: string -> int, x: string, q: Path)
    requires c.capacity >= 1 && Lookup(disk, c.root) == Some(Dir(ch))
    ensures var r := Startup(c, disk, accept, mtime);
      && (x in ch && accept(x, ch[x]) && x !in r.st.keys ==> Lookup(r.st.disk, Folder(c, x)).None?)
      && (x in ch && !accept(x, ch[x]) ==> x !in r.st.keys && Lookup(r.st.disk, Folder(c, x)) == Lookup(disk, Folder(c, x)))
      && (Apart(c.root, q) ==> Lookup(r.st.disk, q) == Lookup(disk, q))
  {
    var order := SortByMtime(Listing(ch, accept), mtime);
    var s := State([], 0, disk);
    StartupIsSeed(c, disk, ch, accept, mtime);
    OrderSpec(ch, accept, mtime);
    StartupFromDir(c, disk, ch, accept, mtime);
    if x in ch && accept(x, ch[x]) && x !in Seed(c, s, order).st.keys {
      SeedDeletesDropped(c, s, order, x);
    }
    if x in ch && !accept(x, ch[x]) {
      forall y | y in order ensures Apart(Folder(c, y), Folder(c, x)) {
        FoldersApart(c, y, x);
      }
      SeedFrame(c, s, order, Folder(c, x));
    }
    if Apart(c.root, q) {
      ApartFromFolders(c, q);
      SeedFrame(c, s, order, q);
    }
  }

  // ------------------------------------------------------------ two runs

  /** A directory holding the one child `a`, accepted, lists as `[a]`. */
  lemma ListingOfOne(ch: map<string, Node>, accept: (string, Node) -> bool)
    requires ch.Keys == {"a"} && accept("a", ch["a"])
    ensures Listing(ch, accept) == ["a"]
  {
    assert Least({"a"}) == "a";
    assert Ascending(ch.Keys) == ["a"] by {
      assert {"a"} - {"a"} == {};
    }
    assert Accepted(["a"], ch, accept) == ["a"] + Accepted(["a"][1..], ch, accept);
    assert ["a"][1..] == [];
  }

  /** A folder holding one 5-byte file has size 5. */
  lemma SizeOfOneFile()
    ensures Size(Dir(map["f" := File(5)])) == 5
  {
    var a := Dir(map["f" := File(5)]);
    assert Least({"f"}) == "f";
    assert a.children.Keys == {"f"};
    assert {"f"} - {"f"} == {};
  }

  /** Startup on a root `cache` holding folder `a` with one 5-byte file, in byte mode with capacity 10. */
  lemma StartupOfOneFolder(accept: (string, Node) -> bool, mtime: string -> int)
    requires forall x, n :: accept(x, n)
    ensures var c := Config(["cache"], 10, true);
      var disk := Dir(map["cache" := Dir(map["a" := Dir(map["f" := File(5)])])]);
      Startup(c, disk, accept, mtime) == Outcome(State(["a"], 5, disk), true)
  {
    var c := Config(["cache"], 10, true);
    var a := Dir(map["f" := File(5)]);
    var ch := map["a" := a];
    var disk := Dir(map["cache" := Dir(ch)]);
    assert Lookup(disk, c.root) == Some(Dir(ch));
    assert Listing(ch, accept) == ["a"] by { ListingOfOne(ch, accept); }
    assert SortByMtime(["a"], mtime) == ["a"];
    assert Lookup(disk, Folder(c, "a")) == Some(a);
    assert EntrySize(c, disk, "a") == 5 by { SizeOfOneFile(); }
    var s := State([], 0, disk);
    assert Put(c, s, "a") == Outcome(State(["a"], 5, disk), true);
  }

  /**
   * Byte mode, capacity 10, a root `cache` holding folder `a` with one
   * 5-byte file: startup registers `a` with total 5, and a `clear()` right
   * after leaves nothing registered, keeps the total at 5 and throws.
   */
  lemma ClearThrowsAfterStartup(accept: (string, Node) -> bool, mtime: string -> int)
    requires forall x, n :: accept(x, n)
    ensures var c := Config(["cache"], 10, true);
      var disk := Dir(map["cache" := Dir(map["a" := Dir(map["f" := File(5)])])]);
      var r := Startup(c, disk, accept, mtime);
      && r.st.keys == ["a"] && r.st.total == 5
      && !Clear(c, r.st).ok && Clear(c, r.st).st.total == 5 && Clear(c, r.st).st.keys == []
  {
    var c := Config(["cache"], 10, true);
    var disk := Dir(map["cache" := Dir(map["a" := Dir(map["f" := File(5)])])]);
    StartupOfOneFolder(accept, mtime);
    StartupOk(c, disk, accept, mtime);
    ClearThrows(c, State(["a"], 5, disk));
  }

  /** One `getOrAdd` of a new name in count mode, its folder missing under the root directory. */
  lemma GetOrAddNewCount(c: Config, s: State, k: string)
    requires Inv(c, s) && !c.cntByte && k !in s.keys
    requires IsDirAt(s.disk, c.root) && Lookup(s.disk, Folder(c, k)).None?
    ensures var r := GetOrAdd(c, s, k);
      && Inv(c, r.st) && IsDirAt(r.st.disk, c.root)
      && r.st.keys == Newest(s.keys + [k], c.capacity)
      && Lookup(r.st.disk, Folder(c, k)) == Some(Dir(map[]))
  {
    AddInv(c, s, k);
    AddCount(c, s, k);
    WithoutAbsent(s.keys, k);
    AddCreatesFolder(c, s, k);
    AddKeepsRootDir(c, s, k);
  }

  /** `AddFolders` for a `getOrAdd` of a new name. */
  lemma GetOrAddNewFolders(c: Config, s: State, k: string, x: string)
    requires Inv(c, s) && x != k && k !in s.keys
    ensures var r := GetOrAdd(c, s, k);
      && (x in r.st.keys ==> Lookup(r.st.disk, Folder(c, x)) == Lookup(s.disk, Folder(c, x)))
      && (x in s.keys && x !in r.st.keys ==> Lookup(r.st.disk, Folder(c, x)).None?)
      && (x !in s.keys ==> x !in r.st.keys && Lookup(r.st.disk, Folder(c, x)) == Lookup(s.disk, Folder(c, x)))
  {
    AddFolders(c, s, k, x);
  }

  /** The demo's first call: the first name is registered and its folder created. */
  lemma FirstGetOrAdd(c: Config, s0: State, a: string, b: string, d: string)
    requires Inv(c, s0) && !c.cntByte && c.capacity == 2 && s0.keys == []
    requires IsDirAt(s0.disk, c.root) && a != b && b != d && a != d
    requires Lookup(s0.disk, Folder(c, a)).None? && Lookup(s0.disk, Folder(c, b)).None? && Lookup(s0.disk, Folder(c, d)).None?
    ensures var s1 := GetOrAdd(c, s0, a).st;
      && Inv(c, s1) && IsDirAt(s1.disk, c.root) && s1.keys == [a]
      && Lookup(s1.disk, Folder(c, a)) == Some(Dir(map[]))
      && Lookup(s1.disk, Folder(c, b)).None? && Lookup(s1.disk, Folder(c, d)).None?
  {
    var s1 := GetOrAdd(c, s0, a).st;
    assert Inv(c, s1) && IsDirAt(s1.disk, c.root) && s1.keys == [a] && Lookup(s1.disk, Folder(c, a)) == Some(Dir(map[])) by {
      GetOrAddNewCount(c, s0, a);
      assert s0.keys + [a] == [a];
    }
    assert Lookup(s1.disk, Folder(c, b)).None? by {
      GetOrAddNewFolders(c, s0, a, b);
    }
    assert Lookup(s1.disk, Folder(c, d)).None? by {
      GetOrAddNewFolders(c, s0, a, d);
    }
  }

  /** The demo's second call: a second new name joins the first. */
  lemma SecondGetOrAdd(c: Config, s1: State, a: string, b: string)
    requires Inv(c, s1) && !c.cntByte && c.capacity == 2 && s1.keys == [a] && a != b
    requires IsDirAt(s1.disk, c.root) && Lookup(s1.disk, Folder(c, b)).None?
    ensures var s2 := GetOrAdd(c, s1, b).st;
      && Inv(c, s2) && IsDirAt(s2.disk, c.root) && s2.keys == [a, b]
      && Lookup(s2.disk, Folder(c, b)) == Some(Dir(map[]))
  {
    GetOrAddNewCount(c, s1, b);
    assert s1.keys + [b] == [a, b];
  }

  /** The second call leaves the first name's folder and the third name's missing folder as they were. */
  lemma SecondKeepsOthers(c: Config, s1: State, a: string, b: string, d: string)
    requires Inv(c, s1) && s1.keys == [a] && a != b && b != d
    requires Lookup(s1.disk, Folder(c, a)) == Some(Dir(map[])) && Lookup(s1.disk, Folder(c, d)).None?
    requires GetOrAdd(c, s1, b).st.keys == [a, b]
    ensures var s2 := GetOrAdd(c, s1, b).st;
      && Lookup(s2.disk, Folder(c, a)) == Some(Dir(map[]))
      && Lookup(s2.disk, Folder(c, d)).None?
  {
    assert b !in s1.keys;
    assert Lookup(GetOrAdd(c, s1, b).st.disk, Folder(c, a)) == Some(Dir(map[])) by {
      GetOrAddNewFolders(c, s1, b, a);
    }
    GetOrAddNewFolders(c, s1, b, d);
  }

  /** The demo's third call: the third name joins as the newest and the eldest is evicted. */
  lemma ThirdGetOrAdd(c: Config, s2: State, a: string, b: string, d: string)
    requires Inv(c, s2) && !c.cntByte && c.capacity == 2 && s2.keys == [a, b]
    requires IsDirAt(s2.disk, c.root) && a != b && b != d && a != d
    requires Lookup(s2.disk, Folder(c, d)).None?
    ensures var s3 := GetOrAdd(c, s2, d).st;
      && s3.keys == [b, d]
      && Lookup(s3.disk, Folder(c, d)) == Some(Dir(map[]))
  {
    GetOrAddNewCount(c, s2, d);
    assert s2.keys + [d] == [a, b, d];
    assert [a, b, d][1..] == [b, d];
  }

  /** The third call deletes the evicted eldest folder and keeps the surviving one. */
  lemma ThirdDeletesEldest(c: Config, s2: State, a: string, b: string, d: string)
    requires Inv(c, s2) && s2.keys == [a, b] && a != d && b != d
    requires Lookup(s2.disk, Folder(c, b)) == Some(Dir(map[]))
    requires GetOrAdd(c, s2, d).st.keys == [b, d]
    ensures var s3 := GetOrAdd(c, s2, d).st;
      && Lookup(s3.disk, Folder(c, a)).None?
      && Lookup(s3.disk, Folder(c, b)) == Some(Dir(map[]))
  {
    assert d !in s2.keys;
    assert a in s2.keys && a !in GetOrAdd(c, s2, d).st.keys;
    assert Lookup(GetOrAdd(c, s2, d).st.disk, Folder(c, a)).None? by {
      GetOrAddNewFolders(c, s2, d, a);
    }
    GetOrAddNewFolders(c, s2, d, b);
  }

  /**
   * With capacity 2 in count mode, three `getOrAdd` calls of new names on an
   * empty cache leave the last two registered and delete the first one's folder.
   */
  lemma ThirdEvictsFirst(c: Config, s0: State, a: string, b: string, d: string)
    requires Inv(c, s0) && !c.cntByte && c.capacity == 2 && s0.keys == []
    requires IsDirAt(s0.disk, c.root) && a != b && b != d && a != d
    requires Lookup(s0.disk, Folder(c, a)).None? && Lookup(s0.disk, Folder(c, b)).None? && Lookup(s0.disk, Folder(c, d)).None?
    ensures var s1 := GetOrAdd(c, s0, a).st;
      var s2 := GetOrAdd(c, s1, b).st;
      var s3 := GetOrAdd(c, s2, d).st;
      && s3.keys == [b, d]
      && Lookup(s3.disk, Folder(c, a)).None?
      && Lookup(s3.disk, Folder(c, b)) == Some(Dir(map[]))
      && Lookup(s3.disk, Folder(c, d)) == Some(Dir(map[]))
  {
    var s1 := GetOrAdd(c, s0, a).st;
    FirstGetOrAdd(c, s0, a, b, d);
    SecondGetOrAdd(c, s1, a, b);
    SecondKeepsOthers(c, s1, a, b, d);
    var s2 := GetOrAdd(c, s1, b).st;
    ThirdGetOrAdd(c, s2, a, b, d);
    ThirdDeletesEldest(c, s2, a, b, d);
  }

  /** The demo's starting point: an empty root directory gives an empty cache. */
  lemma StartupEmptyRoot(c: Config, disk: Node, accept: (string, Node) -> bool, mtime: string -> int)
    requires Lookup(disk, c.root) == Some(Dir(map[]))
    ensures Startup(c, disk, accept, mtime) == Outcome(State([], 0, disk), true)
  {
    var ch: map<string, Node> := map[];
    assert Ascending(ch.Keys) == [];
  }

  /**
   * The demo program: count mode, capacity 2, an empty root directory;
   * `getOrAdd("test")`, `getOrAdd("hello")`, `getOrAdd("world")` leave
   * `hello` and `world` registered with their folders as empty directories,
   * and the folder of `test`, evicted by the third call, is gone.
   */
  lemma DemoRun(accept: (string, Node) -> bool, mtime: string -> int)
    ensures var c := Config(["cache"], 2, false);
      var s0 := Startup(c, Dir(map["cache" := Dir(map[])]), accept, mtime).st;
      var s1 := GetOrAdd(c, s0, "test").st;
      var s2 := GetOrAdd(c, s1, "hello").st;
      var s3 := GetOrAdd(c, s2, "world").st;
      && s3.keys == ["hello", "world"]
      && Lookup(s3.disk, Folder(c, "test")).None?
      && Lookup(s3.disk, Folder(c, "hello")) == Some(Dir(map[]))
      && Lookup(s3.disk, Folder(c, "world")) == Some(Dir(map[]))
  {
    var c := Config(["cache"], 2, false);
    var disk := Dir(map["cache" := Dir(map[])]);
    assert Lookup(disk, c.root) == Some(Dir(map[]));
    StartupEmptyRoot(c, disk, accept, mtime);
    var s0 := State([], 0, disk);
    assert Lookup(disk, Folder(c, "test")).None?;
    assert Lookup(disk, Folder(c, "hello")).None?;
    assert Lookup(disk, Folder(c, "world")).None?;
    ThirdEvictsFirst(c, s0, "test", "hello", "world");
  }
}
