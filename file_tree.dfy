/**
 * An abstract filesystem: the part of `java.io.File` the cache relies on.
 * The whole disk is one tree whose top is a directory; a path is the
 * sequence of names that leads from the top to a node. A path that leads
 * nowhere is a missing file (`exists()` is false).
 */
module FileTree {
  import opened StringOrder

  datatype Option<T> = None | Some(value: T)

  /** A regular file of `len` bytes, or a directory with named children. */
  datatype Node = File(len: nat) | Dir(children: map<string, Node>)

  type Path = seq<string>

  /** The node that path `p` names below `n`, if it exists. */
  function Lookup(n: Node, p: Path): Option<Node>
    decreases |p|
  {
    if p == [] then Some(n)
    else match n
      case File(_) => None
      case Dir(ch) => if p[0] in ch then Lookup(ch[p[0]], p[1..]) else None
  }

  predicate IsDirAt(n: Node, p: Path)
  {
    Lookup(n, p).Some? && Lookup(n, p).value.Dir?
  }

  predicate IsFileAt(n: Node, p: Path)
  {
    Lookup(n, p).Some? && Lookup(n, p).value.File?
  }

  /**
   * Puts `v` at path `p` (removes the node there when `v` is `None`).
   * Nothing changes when the parent of `p` is not a directory. The top of
   * the tree cannot be removed: removing it leaves an empty directory.
   */
  function Update(n: Node, p: Path, v: Option<Node>): Node
    decreases |p|
  {
    if p == [] then (match v case Some(m) => m case None => Dir(map[]))
    else match n
      case File(_) => n
      case Dir(ch) =>
        if |p| == 1 then Dir(match v case Some(m) => ch[p[0] := m] case None => ch - {p[0]})
        else if p[0] in ch then Dir(ch[p[0] := Update(ch[p[0]], p[1..], v)])
        else n
  }

  /**
   * `File.mkdirs()`: makes the directory `p` together with every missing
   * parent. It fails (`None`) when some prefix of `p` is a regular file.
   */
  function Mkdirs(n: Node, p: Path): Option<Node>
    decreases |p|
  {
    if p == [] then (if n.Dir? then Some(n) else None)
    else match n
      case File(_) => None
      case Dir(ch) =>
        var sub := if p[0] in ch then ch[p[0]] else Dir(map[]);
        match Mkdirs(sub, p[1..])
        case None => None
        case Some(sub') => Some(Dir(ch[p[0] := sub']))
  }

  /** The disk after `mkdirs`; a failed `mkdirs` leaves it as it was. */
  function MkdirsOrSame(n: Node, p: Path): Node
  {
    match Mkdirs(n, p) case Some(n') => n' case None => n
  }

  /** The byte size of an existing node: a file's length, a directory's children summed. */
  function Size(n: Node): nat
    decreases n, 1, 0
  {
    match n
    case File(len) => len
    case Dir(ch) => SumChildren(n, ch.Keys)
  }

  /** The sizes of the children of directory `n` named in `ks`, summed in ascending name order. */
  function SumChildren(n: Node, ks: set<string>): nat
    requires n.Dir? && ks <= n.children.Keys
    decreases n, 0, |ks|
  {
    if ks == {} then 0
    else
      var k := Least(ks);
      Size(n.children[k]) + SumChildren(n, ks - {k})
  }

  /** `getFileSize`: 0 for a missing node, otherwise its size. */
  function FileSize(o: Option<Node>): nat
  {
    match o
    case None => 0
    case Some(n) => Size(n)
  }

  /**
   * What `delFile(p, deleteSelf)` leaves on disk: nothing changes when `p`
   * is missing; a file is removed; a directory loses all its contents and
   * is itself removed only when `deleteSelf` holds.
   */
  function Deleted(n: Node, p: Path, deleteSelf: bool): Node
  {
    match Lookup(n, p)
    case None => n
    case Some(File(_)) => Update(n, p, None)
    case Some(Dir(_)) => if deleteSelf then Update(n, p, None) else Update(n, p, Some(Dir(map[])))
  }

  /** Two paths are apart when neither lies inside the other. */
  predicate Apart(p: Path, q: Path)
  {
    !(p <= q) && !(q <= p)
  }

  // ---------------------------------------------------------------- lookup

  lemma {:induction false} LookupMissingBelow(n: Node, p: Path, q: Path)
    requires Lookup(n, p).None? && p <= q
    ensures Lookup(n, q).None?
    decreases |p|
  {
    if p != [] && n.Dir? && p[0] in n.children {
      LookupMissingBelow(n.children[p[0]], p[1..], q[1..]);
    }
  }

  // ---------------------------------------------------------------- update

  lemma {:induction false} LookupUpdateAt(n: Node, p: Path, v: Option<Node>)
    requires Lookup(n, p).Some?
    ensures Lookup(Update(n, p, v), p) == if p == [] && v.None? then Some(Dir(map[])) else v
    decreases |p|
  {
    if |p| > 1 {
      LookupUpdateAt(n.children[p[0]], p[1..], v);
    }
  }

  lemma {:induction false} LookupUpdateApart(n: Node, p: Path, v: Option<Node>, q: Path)
    requires Apart(p, q)
    ensures Lookup(Update(n, p, v), q) == Lookup(n, q)
    decreases |p|
  {
    if n.Dir? && p[0] == q[0] && |p| > 1 && p[0] in n.children {
      LookupUpdateApart(n.children[p[0]], p[1..], v, q[1..]);
    }
  }

  lemma {:induction false} LookupUpdateBelow(n: Node, p: Path, v: Option<Node>, q: Path)
    requires Lookup(n, p).Some? && p <= q && |p| < |q|
    ensures Lookup(Update(n, p, v), q) == match v case None => None case Some(m) => Lookup(m, q[|p|..])
    decreases |p|
  {
    if |p| > 1 {
      LookupUpdateBelow(n.children[p[0]], p[1..], v, q[1..]);
      assert q[1..][|p| - 1..] == q[|p|..];
    } else if |p| == 1 {
      assert q[1..] == q[|p|..];
    }
  }

  lemma {:induction false} UpdateSame(n: Node, p: Path)
    requires Lookup(n, p).Some?
    ensures Update(n, p, Lookup(n, p)) == n
    decreases |p|
  {
    if |p| == 1 {
      assert n.children[p[0] := n.children[p[0]]] == n.children;
    } else if |p| > 1 {
      UpdateSame(n.children[p[0]], p[1..]);
      assert n.children[p[0] := n.children[p[0]]] == n.children;
    }
  }

  lemma {:induction false} UpdateTwice(n: Node, p: Path, v: Option<Node>, w: Option<Node>)
    ensures Update(Update(n, p, v), p, w) == Update(n, p, w)
    decreases |p|
  {
    if p != [] && n.Dir? {
      var ch, k := n.children, p[0];
      if |p| == 1 {
        match (v, w)
        case (Some(a), Some(b)) => assert ch[k := a][k := b] == ch[k := b];
        case (Some(a), None) => assert ch[k := a] - {k} == ch - {k};
        case (None, Some(b)) => assert (ch - {k})[k := b] == ch[k := b];
        case (None, None) => assert ch - {k} - {k} == ch - {k};
      } else if k in ch {
        UpdateTwice(ch[k], p[1..], v, w);
        assert ch[k := Update(ch[k], p[1..], v)][k := Update(Update(ch[k], p[1..], v), p[1..], w)]
          == ch[k := Update(ch[k], p[1..], w)];
      }
    }
  }

  lemma {:induction false} UpdateDropChild(n: Node, p: Path, r: map<string, Node>, c: string)
    requires Lookup(n, p).Some?
    ensures Update(Update(n, p, Some(Dir(r))), p + [c], None) == Update(n, p, Some(Dir(r - {c})))
    decreases |p|
  {
    if p != [] {
      var ch, k := n.children, p[0];
      assert (p + [c])[0] == k && (p + [c])[1..] == p[1..] + [c];
      if |p| > 1 {
        UpdateDropChild(ch[k], p[1..], r, c);
      }
    }
  }

  // ---------------------------------------------------------------- mkdirs

  lemma {:induction false} MkdirsMakesDir(n: Node, p: Path)
    requires Mkdirs(n, p).Some?
    ensures IsDirAt(Mkdirs(n, p).value, p)
    ensures Lookup(n, p).None? ==> Lookup(Mkdirs(n, p).value, p) == Some(Dir(map[]))
    ensures IsDirAt(n, p) ==> Mkdirs(n, p).value == n
    decreases |p|
  {
    if p != [] {
      var ch, k := n.children, p[0];
      var sub := if k in ch then ch[k] else Dir(map[]);
      MkdirsMakesDir(sub, p[1..]);
      if k !in ch {
        MkdirsOfEmpty(p[1..]);
      }
      if IsDirAt(n, p) {
        assert ch[k := sub] == ch;
      }
    }
  }

  lemma {:induction false} MkdirsOfEmpty(p: Path)
    ensures Mkdirs(Dir(map[]), p).Some?
    ensures Lookup(Mkdirs(Dir(map[]), p).value, p) == Some(Dir(map[]))
    decreases |p|
  {
    if p != [] {
      MkdirsOfEmpty(p[1..]);
    }
  }

  lemma {:induction false} MkdirsApart(n: Node, p: Path, q: Path)
    requires Mkdirs(n, p).Some? && Apart(p, q)
    ensures Lookup(Mkdirs(n, p).value, q) == Lookup(n, q)
    decreases |p|
  {
    var ch, k := n.children, p[0];
    if q[0] == k {
      var sub := if k in ch then ch[k] else Dir(map[]);
      MkdirsApart(sub, p[1..], q[1..]);
      if k !in ch {
        EmptyLookup(q[1..]);
      }
    }
  }

  lemma EmptyLookup(q: Path)
    requires q != []
    ensures Lookup(Dir(map[]), q).None?
  {
  }

  /** `mkdirs` succeeds exactly when no prefix of the path is a regular file. */
  lemma {:induction false} MkdirsSucceedsIff(n: Node, p: Path)
    ensures Mkdirs(n, p).Some? <==> forall i :: 0 <= i <= |p| ==> !IsFileAt(n, p[..i])
    decreases |p|
  {
    if p == [] {
      assert p[..0] == [];
    } else if n.File? {
      assert p[..0] == [] && IsFileAt(n, p[..0]);
    } else {
      var ch, k := n.children, p[0];
      var sub := if k in ch then ch[k] else Dir(map[]);
      MkdirsSucceedsIff(sub, p[1..]);
      forall i | 0 <= i < |p| ensures IsFileAt(n, p[..i + 1]) == IsFileAt(sub, p[1..][..i]) {
        assert p[..i + 1][0] == k && p[..i + 1][1..] == p[1..][..i];
        if k !in ch && i > 0 {
          EmptyLookup(p[1..][..i]);
        }
      }
      assert p[..0] == [];
      if Mkdirs(n, p).Some? {
        forall i | 0 <= i <= |p| ensures !IsFileAt(n, p[..i]) {
          if i > 0 {
            assert IsFileAt(n, p[..(i - 1) + 1]) == IsFileAt(sub, p[1..][..i - 1]);
          }
        }
      } else {
        var j :| 0 <= j <= |p[1..]| && IsFileAt(sub, p[1..][..j]);
        assert IsFileAt(n, p[..j + 1]);
      }
    }
  }

  // ---------------------------------------------------------------- sizes

  lemma {:induction false} SumChildrenAgree(n: Node, n': Node, ks: set<string>)
    requires n.Dir? && n'.Dir? && ks <= n.children.Keys && ks <= n'.children.Keys
    requires forall k :: k in ks ==> n.children[k] == n'.children[k]
    ensures SumChildren(n, ks) == SumChildren(n', ks)
    decreases |ks|
  {
    if ks != {} {
      SumChildrenAgree(n, n', ks - {Least(ks)});
    }
  }

  /** The sum over a directory's children does not depend on the order they are taken in. */
  lemma {:induction false} SumChildrenSplit(n: Node, ks: set<string>, k: string)
    requires n.Dir? && ks <= n.children.Keys && k in ks
    ensures SumChildren(n, ks) == Size(n.children[k]) + SumChildren(n, ks - {k})
    decreases |ks|
  {
    var m := Least(ks);
    if m != k {
      SumChildrenSplit(n, ks - {m}, k);
      SumChildrenSplit(n, ks - {k}, m);
      assert ks - {m} - {k} == ks - {k} - {m};
    }
  }

  /**
   * `getFileSize` of a directory is the size of any one child plus the size
   * of the directory without that child; with the empty directory at 0, this
   * says the size is the sum over all children, in whatever order.
   */
  lemma SizeSplit(ch: map<string, Node>, k: string)
    requires k in ch
    ensures Size(Dir(ch)) == Size(ch[k]) + Size(Dir(ch - {k}))
  {
    SumChildrenSplit(Dir(ch), ch.Keys, k);
    assert (ch - {k}).Keys == ch.Keys - {k};
    SumChildrenAgree(Dir(ch), Dir(ch - {k}), ch.Keys - {k});
  }

  /** `getFileSize` case by case: missing, file, directory. */
  lemma FileSizeCases(o: Option<Node>)
    ensures o.None? ==> FileSize(o) == 0
    ensures o.Some? && o.value.File? ==> FileSize(o) == o.value.len
    ensures o == Some(Dir(map[])) ==> FileSize(o) == 0
    ensures o.Some? && o.value.Dir? ==> forall k :: k in o.value.children ==>
      FileSize(o) == Size(o.value.children[k]) + FileSize(Some(Dir(o.value.children - {k})))
  {
    if o.Some? && o.value.Dir? {
      forall k | k in o.value.children
        ensures FileSize(o) == Size(o.value.children[k]) + FileSize(Some(Dir(o.value.children - {k})))
      {
        SizeSplit(o.value.children, k);
      }
    }
  }

  lemma {:induction false} SizeAtLeastChild(ch: map<string, Node>, k: string)
    requires k in ch
    ensures Size(ch[k]) <= Size(Dir(ch))
  {
    SizeSplit(ch, k);
  }

  // ---------------------------------------------------------------- delete

  /** `delFile` at the path itself: missing is a no-op; a file goes; a directory goes iff `deleteSelf`. */
  lemma DeletedAt(n: Node, p: Path, deleteSelf: bool)
    ensures Lookup(n, p).None? ==> Deleted(n, p, deleteSelf) == n
    ensures IsFileAt(n, p) && p != [] ==> Lookup(Deleted(n, p, deleteSelf), p).None?
    ensures IsDirAt(n, p) && p != [] ==>
      Lookup(Deleted(n, p, deleteSelf), p) == if deleteSelf then None else Some(Dir(map[]))
  {
    if Lookup(n, p).Some? {
      LookupUpdateAt(n, p, None);
      LookupUpdateAt(n, p, Some(Dir(map[])));
    }
  }

  /** `delFile` removes every descendant of `p`. */
  lemma DeletedBelow(n: Node, p: Path, deleteSelf: bool, q: Path)
    requires p <= q && |p| < |q|
    ensures Lookup(Deleted(n, p, deleteSelf), q).None?
  {
    if Lookup(n, p).None? {
      LookupMissingBelow(n, p, q);
    } else {
      LookupUpdateBelow(n, p, None, q);
      LookupUpdateBelow(n, p, Some(Dir(map[])), q);
      EmptyLookup(q[|p|..]);
    }
  }

  /** `delFile` touches nothing outside `p` and its ancestors. */
  lemma DeletedApart(n: Node, p: Path, deleteSelf: bool, q: Path)
    requires Apart(p, q)
    ensures Lookup(Deleted(n, p, deleteSelf), q) == Lookup(n, q)
  {
    LookupUpdateApart(n, p, None, q);
    LookupUpdateApart(n, p, Some(Dir(map[])), q);
  }

  /** Deleting twice is deleting once. */
  lemma DeletedTwice(n: Node, p: Path, deleteSelf: bool)
    ensures Deleted(Deleted(n, p, deleteSelf), p, deleteSelf) == Deleted(n, p, deleteSelf)
  {
    if Lookup(n, p).Some? {
      var v := if deleteSelf || Lookup(n, p).value.File? then None else Some(Dir(map[]));
      var once := Update(n, p, v);
      assert Deleted(n, p, deleteSelf) == once;
      LookupUpdateAt(n, p, v);
      UpdateTwice(n, p, v, None);
      UpdateTwice(n, p, v, Some(Dir(map[])));
    }
  }

  /** Deleting never brings a missing path into existence. */
  lemma DeletedKeepsMissing(n: Node, p: Path, deleteSelf: bool, q: Path)
    requires Lookup(n, q).None?
    ensures Lookup(Deleted(n, p, deleteSelf), q).None?
  {
    if Lookup(n, p).Some? {
      if Apart(p, q) {
        DeletedApart(n, p, deleteSelf, q);
      } else if p <= q && |p| < |q| {
        DeletedBelow(n, p, deleteSelf, q);
      } else {
        assert q <= p;
        LookupMissingBelow(n, q, p);
      }
    }
  }

  /** Changing a child of a directory keeps the directory, and puts the new value at the child. */
  lemma {:induction false} LookupUpdateChild(n: Node, p: Path, k: string, v: Option<Node>)
    requires IsDirAt(n, p)
    ensures Lookup(Update(n, p + [k], v), p + [k]) == v
    ensures IsDirAt(Update(n, p + [k], v), p)
    decreases |p|
  {
    if p != [] {
      assert (p + [k])[0] == p[0] && (p + [k])[1..] == p[1..] + [k];
      LookupUpdateChild(n.children[p[0]], p[1..], k, v);
    }
  }

  /** Inside an existing directory, `mkdirs` of a missing child adds one empty directory. */
  lemma {:induction false} MkdirsChild(n: Node, p: Path, k: string)
    requires IsDirAt(n, p) && Lookup(n, p + [k]).None?
    ensures Mkdirs(n, p + [k]) == Some(Update(n, p + [k], Some(Dir(map[]))))
    decreases |p|
  {
    assert (p + [k])[0] == (if p == [] then k else p[0]) && (p + [k])[1..] == if p == [] then [] else p[1..] + [k];
    if p != [] {
      MkdirsChild(n.children[p[0]], p[1..], k);
    }
  }
}
