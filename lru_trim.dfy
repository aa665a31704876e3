/**
 * What LruCache's bookkeeping guarantees: the sequence facts behind the
 * access order and the size sum, and the eviction loop `trimToSize`.
 */
module LruTrim {
  import opened FileTree
  import opened LruSpec

  // ------------------------------------------------------------ sequences

  lemma {:induction false} WithoutDistinct(keys: seq<string>, k: string)
    requires Distinct(keys)
    ensures Distinct(Without(keys, k))
    ensures |Without(keys, k)| == if k in keys then |keys| - 1 else |keys|
  {
    if keys != [] {
      WithoutDistinct(keys[1..], k);
      assert keys[0] !in keys[1..] by {
        forall j | 0 <= j < |keys[1..]| ensures keys[1..][j] != keys[0] {
          assert keys[1..][j] == keys[j + 1];
        }
      }
      var w := Without(keys, k);
      if keys[0] != k {
        assert w == [keys[0]] + Without(keys[1..], k);
        forall i, j | 0 <= i < j < |w| ensures w[i] != w[j] {
          if i > 0 {
            assert w[i] == Without(keys[1..], k)[i - 1];
          }
        }
      }
    }
  }

  lemma PromoteDistinct(keys: seq<string>, k: string)
    requires Distinct(keys)
    ensures Distinct(Promote(keys, k))
    ensures |Promote(keys, k)| == if k in keys then |keys| else |keys| + 1
  {
    WithoutDistinct(keys, k);
  }

  lemma FoldersApart(c: Config, a: string, b: string)
    requires a != b
    ensures Apart(Folder(c, a), Folder(c, b))
  {
    assert Folder(c, a)[|c.root|] == a && Folder(c, b)[|c.root|] == b;
  }

  // ------------------------------------------------------------ size sums

  lemma {:induction false} SumSizesAppend(c: Config, d: Node, keys: seq<string>, k: string)
    ensures SumSizes(c, d, keys + [k]) == SumSizes(c, d, keys) + EntrySize(c, d, k)
  {
    if keys != [] {
      assert (keys + [k])[1..] == keys[1..] + [k];
      SumSizesAppend(c, d, keys[1..], k);
    }
  }

  lemma {:induction false} SumSizesWithout(c: Config, d: Node, keys: seq<string>, k: string)
    requires Distinct(keys) && k in keys
    ensures SumSizes(c, d, keys) == SumSizes(c, d, Without(keys, k)) + EntrySize(c, d, k)
  {
    if keys[0] != k {
      SumSizesWithout(c, d, keys[1..], k);
    } else {
      assert Without(keys[1..], k) == keys[1..] by { WithoutAbsent(keys[1..], k); }
    }
  }

  lemma {:induction false} WithoutAbsent(keys: seq<string>, k: string)
    requires k !in keys
    ensures Without(keys, k) == keys
  {
    if keys != [] {
      WithoutAbsent(keys[1..], k);
    }
  }

  lemma {:induction false} SumSizesCount(c: Config, d: Node, keys: seq<string>)
    requires !c.cntByte
    ensures SumSizes(c, d, keys) == |keys|
  {
    if keys != [] {
      SumSizesCount(c, d, keys[1..]);
    }
  }

  lemma {:induction false} SumSizesFrame(c: Config, d: Node, d': Node, keys: seq<string>)
    requires forall k :: k in keys ==> EntrySize(c, d, k) == EntrySize(c, d', k)
    ensures SumSizes(c, d, keys) == SumSizes(c, d', keys)
  {
    if keys != [] {
      SumSizesFrame(c, d, d', keys[1..]);
    }
  }

  lemma {:induction false} SumSizesAtLeast(c: Config, d: Node, keys: seq<string>, i: nat)
    requires i < |keys|
    ensures EntrySize(c, d, keys[i]) <= SumSizes(c, d, keys)
  {
    if i > 0 {
      SumSizesAtLeast(c, d, keys[1..], i - 1);
    }
  }

  /** Deleting the folder of `k` leaves what `sizeOf` reports for every other name unchanged. */
  lemma SumSizesAfterRemoval(c: Config, d: Node, k: string, keys: seq<string>)
    requires k !in keys
    ensures SumSizes(c, EntryRemoved(c, d, k), keys) == SumSizes(c, d, keys)
  {
    forall x | x in keys ensures Lookup(EntryRemoved(c, d, k), Folder(c, x)) == Lookup(d, Folder(c, x)) {
      FoldersApart(c, k, x);
      DeletedApart(d, Folder(c, k), true, Folder(c, x));
    }
    SumSizesFrame(c, d, EntryRemoved(c, d, k), keys);
  }

  /** After its folder is deleted, an entry weighs 0 in byte mode. */
  lemma EntrySizeAfterRemoval(c: Config, d: Node, k: string)
    ensures Lookup(EntryRemoved(c, d, k), Folder(c, k)).None?
    ensures c.cntByte ==> EntrySize(c, EntryRemoved(c, d, k), k) == 0
  {
    DeletedAt(d, Folder(c, k), true);
  }

  // ------------------------------------------------------------ trimToSize

  function Evicted(s: State, r: Outcome): seq<string>
  {
    if |r.st.keys| <= |s.keys| then s.keys[..|s.keys| - |r.st.keys|] else []
  }

  /** Eviction only ever drops the eldest entries: what stays is a suffix of the access order. */
  lemma {:induction false} TrimKeepsSuffix(c: Config, s: State, maxSize: int)
    ensures var r := TrimToSize(c, s, maxSize);
      |r.st.keys| <= |s.keys| && r.st.keys == s.keys[|s.keys| - |r.st.keys|..]
    ensures forall x :: x in TrimToSize(c, s, maxSize).st.keys ==> x in s.keys
    decreases |s.keys|
  {
    if !(s.total < 0 || (s.keys == [] && s.total != 0)) && !(s.total <= maxSize || s.keys == []) {
      var k := s.keys[0];
      TrimKeepsSuffix(c, State(s.keys[1..], s.total - EntrySize(c, s.disk, k), EntryRemoved(c, s.disk, k)), maxSize);
    }
  }

  /** Trimming never makes a missing path exist. */
  lemma {:induction false} TrimKeepsMissing(c: Config, s: State, maxSize: int, q: Path)
    requires Lookup(s.disk, q).None?
    ensures Lookup(TrimToSize(c, s, maxSize).st.disk, q).None?
    decreases |s.keys|
  {
    if !(s.total < 0 || (s.keys == [] && s.total != 0)) && !(s.total <= maxSize || s.keys == []) {
      var k := s.keys[0];
      DeletedKeepsMissing(s.disk, Folder(c, k), true, q);
      TrimKeepsMissing(c, State(s.keys[1..], s.total - EntrySize(c, s.disk, k), EntryRemoved(c, s.disk, k)), maxSize, q);
    }
  }

  /** Every evicted entry has its folder deleted. */
  lemma {:induction false} TrimDeletesEvicted(c: Config, s: State, maxSize: int)
    ensures var r := TrimToSize(c, s, maxSize);
      forall k :: k in Evicted(s, r) ==> Lookup(r.st.disk, Folder(c, k)).None?
    decreases |s.keys|
  {
    if !(s.total < 0 || (s.keys == [] && s.total != 0)) && !(s.total <= maxSize || s.keys == []) {
      var k := s.keys[0];
      var s' := State(s.keys[1..], s.total - EntrySize(c, s.disk, k), EntryRemoved(c, s.disk, k));
      var r := TrimToSize(c, s', maxSize);
      assert TrimToSize(c, s, maxSize) == r;
      assert Evicted(s, r) == [k] + Evicted(s', r) by {
        TrimKeepsSuffix(c, s', maxSize);
      }
      assert Lookup(r.st.disk, Folder(c, k)).None? by {
        EntrySizeAfterRemoval(c, s.disk, k);
        TrimKeepsMissing(c, s', maxSize, Folder(c, k));
      }
      TrimDeletesEvicted(c, s', maxSize);
    } else {
      assert TrimToSize(c, s, maxSize).st == s;
    }
  }

  /** Trimming touches nothing on disk but the folders of the entries it evicts. */
  lemma {:induction false} TrimFrame(c: Config, s: State, maxSize: int, q: Path)
    requires forall k :: k in s.keys ==> k in Evicted(s, TrimToSize(c, s, maxSize)) ==> Apart(Folder(c, k), q)
    ensures Lookup(TrimToSize(c, s, maxSize).st.disk, q) == Lookup(s.disk, q)
    decreases |s.keys|
  {
    TrimKeepsSuffix(c, s, maxSize);
    if !(s.total < 0 || (s.keys == [] && s.total != 0)) && !(s.total <= maxSize || s.keys == []) {
      var k := s.keys[0];
      var s' := State(s.keys[1..], s.total - EntrySize(c, s.disk, k), EntryRemoved(c, s.disk, k));
      var r := TrimToSize(c, s', maxSize);
      TrimKeepsSuffix(c, s', maxSize);
      assert Evicted(s, r)[0] == k;
      DeletedApart(s.disk, Folder(c, k), true, q);
      forall x | x in s'.keys && x in Evicted(s', r) ensures Apart(Folder(c, x), q) {
        var i :| 0 <= i < |Evicted(s', r)| && Evicted(s', r)[i] == x;
        assert Evicted(s, r)[i + 1] == x;
      }
      TrimFrame(c, s', maxSize, q);
    }
  }

  /**
   * Trimming keeps the invariant's bookkeeping, ends within `maxSize` unless
   * the map is empty, and throws exactly when it ends with an empty map and
   * a non-zero size.
   */
  lemma {:induction false} TrimInv(c: Config, s: State, maxSize: int)
    requires Distinct(s.keys) && s.total >= SumSizes(c, s.disk, s.keys)
    requires !c.cntByte ==> s.total == |s.keys|
    ensures var r := TrimToSize(c, s, maxSize);
      && Distinct(r.st.keys) && r.st.total >= SumSizes(c, r.st.disk, r.st.keys)
      && (!c.cntByte ==> r.st.total == |r.st.keys|)
      && (r.st.total <= maxSize || r.st.keys == [])
      && (r.ok <==> (r.st.keys != [] || r.st.total == 0))
    decreases |s.keys|
  {
    if !(s.total < 0 || (s.keys == [] && s.total != 0)) && !(s.total <= maxSize || s.keys == []) {
      var k := s.keys[0];
      var s' := State(s.keys[1..], s.total - EntrySize(c, s.disk, k), EntryRemoved(c, s.disk, k));
      SumSizesAfterRemoval(c, s.disk, k, s.keys[1..]);
      TrimInv(c, s', maxSize);
    }
  }

  /** When the total is exact, trimming keeps it exact and never throws. */
  lemma {:induction false} TrimConsistent(c: Config, s: State, maxSize: int)
    requires Distinct(s.keys) && Consistent(c, s)
    ensures TrimToSize(c, s, maxSize).ok && Consistent(c, TrimToSize(c, s, maxSize).st)
    decreases |s.keys|
  {
    if !(s.total <= maxSize || s.keys == []) {
      var k := s.keys[0];
      var s' := State(s.keys[1..], s.total - EntrySize(c, s.disk, k), EntryRemoved(c, s.disk, k));
      SumSizesAfterRemoval(c, s.disk, k, s.keys[1..]);
      TrimConsistent(c, s', maxSize);
    }
  }

  /** In count mode trimming keeps exactly the `maxSize` newest entries and never throws. */
  lemma {:induction false} TrimCount(c: Config, s: State, maxSize: int)
    requires !c.cntByte && s.total == |s.keys|
    ensures var r := TrimToSize(c, s, maxSize);
      r.ok && r.st.keys == Newest(s.keys, maxSize) && r.st.total == |r.st.keys|
    decreases |s.keys|
  {
    if !(s.total <= maxSize || s.keys == []) {
      var k := s.keys[0];
      var s' := State(s.keys[1..], s.total - EntrySize(c, s.disk, k), EntryRemoved(c, s.disk, k));
      TrimCount(c, s', maxSize);
      if maxSize > 0 {
        assert s.keys[1..][|s.keys[1..]| - maxSize..] == s.keys[|s.keys| - maxSize..];
      }
    }
  }

  /**
   * An entry bigger than `maxSize` can only leave with everything before it:
   * when the newest entry is too big, trimming empties the map.
   */
  lemma {:induction false} TrimTooBig(c: Config, s: State, maxSize: int)
    requires Distinct(s.keys) && s.total >= SumSizes(c, s.disk, s.keys)
    requires s.keys != [] && EntrySize(c, s.disk, s.keys[|s.keys| - 1]) > maxSize
    ensures TrimToSize(c, s, maxSize).st.keys == []
    decreases |s.keys|
  {
    var last := s.keys[|s.keys| - 1];
    SumSizesAtLeast(c, s.disk, s.keys, |s.keys| - 1);
    var k := s.keys[0];
    var s' := State(s.keys[1..], s.total - EntrySize(c, s.disk, k), EntryRemoved(c, s.disk, k));
    SumSizesAfterRemoval(c, s.disk, k, s.keys[1..]);
    if s'.keys != [] {
      assert s'.keys[|s'.keys| - 1] == last && last != k;
      FoldersApart(c, k, last);
      DeletedApart(s.disk, Folder(c, k), true, Folder(c, last));
      TrimTooBig(c, s', maxSize);
    }
  }

  /** Every entry that trimming drops has its folder deleted. */
  lemma {:induction false} TrimDeletesDropped(c: Config, s: State, maxSize: int, x: string)
    requires x in s.keys && x !in TrimToSize(c, s, maxSize).st.keys
    ensures Lookup(TrimToSize(c, s, maxSize).st.disk, Folder(c, x)).None?
  {
    var r := TrimToSize(c, s, maxSize);
    TrimKeepsSuffix(c, s, maxSize);
    TrimDeletesEvicted(c, s, maxSize);
    var i :| 0 <= i < |s.keys| && s.keys[i] == x;
    var n := |s.keys| - |r.st.keys|;
    assert forall j :: n <= j < |s.keys| ==> s.keys[j] == r.st.keys[j - n];
    assert Evicted(s, r)[i] == x;
  }

  /** Trimming keeps the root a directory. */
  lemma {:induction false} TrimKeepsRootDir(c: Config, s: State, maxSize: int)
    requires IsDirAt(s.disk, c.root)
    ensures IsDirAt(TrimToSize(c, s, maxSize).st.disk, c.root)
    decreases |s.keys|
  {
    if !(s.total < 0 || (s.keys == [] && s.total != 0)) && !(s.total <= maxSize || s.keys == []) {
      var k := s.keys[0];
      LookupUpdateChild(s.disk, c.root, k, None);
      TrimKeepsRootDir(c, State(s.keys[1..], s.total - EntrySize(c, s.disk, k), EntryRemoved(c, s.disk, k)), maxSize);
    }
  }

  /** With an exact total, an entry that fits on its own is never evicted when it is the newest. */
  lemma {:induction false} TrimKeepsNewest(c: Config, s: State, maxSize: int)
    requires Distinct(s.keys) && Consistent(c, s)
    requires s.keys != [] && EntrySize(c, s.disk, s.keys[|s.keys| - 1]) <= maxSize
    ensures TrimToSize(c, s, maxSize).st.keys != []
    decreases |s.keys|
  {
    if s.total > maxSize {
      var last := s.keys[|s.keys| - 1];
      var k := s.keys[0];
      var s' := State(s.keys[1..], s.total - EntrySize(c, s.disk, k), EntryRemoved(c, s.disk, k));
      SumSizesAfterRemoval(c, s.disk, k, s.keys[1..]);
      if |s.keys| > 1 {
        assert s'.keys[|s'.keys| - 1] == last && last != k;
        FoldersApart(c, k, last);
        DeletedApart(s.disk, Folder(c, k), true, Folder(c, last));
        TrimKeepsNewest(c, s', maxSize);
      }
    }
  }

  /** When no registered folder exists, trimming leaves the disk alone; in byte mode it subtracts nothing. */
  lemma {:induction false} TrimMissingFolders(c: Config, s: State, maxSize: int)
    requires forall k :: k in s.keys ==> Lookup(s.disk, Folder(c, k)).None?
    ensures TrimToSize(c, s, maxSize).st.disk == s.disk
    ensures c.cntByte ==> TrimToSize(c, s, maxSize).st.total == s.total
    decreases |s.keys|
  {
    if !(s.total < 0 || (s.keys == [] && s.total != 0)) && !(s.total <= maxSize || s.keys == []) {
      var k := s.keys[0];
      TrimMissingFolders(c, State(s.keys[1..], s.total - EntrySize(c, s.disk, k), EntryRemoved(c, s.disk, k)), maxSize);
    }
  }
}
