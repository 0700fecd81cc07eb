// The file system the installers and handlers work on: a map from
// paths to nodes, with the `std::fs` operations they use
// (`create_dir_all`, `remove_dir_all`, `remove_file`, `write`, and the
// recursive directory copy both installers define).

module FileSystem {
  import opened Common

  datatype Node = Dir | File(content: string)

  type Tree = map<Path, Node>

  /** The directory directly above a path other than the root. */
  ghost function Up(p: Path): Path
    requires p != []
  {
    p[..|p| - 1]
  }

  /**
   * The root is a directory and the parent of every other entry is a
   * directory. (A proof uses the second half by mentioning `Up(p)`.)
   */
  ghost predicate WellFormed(t: Tree)
  {
    [] in t && t[[]] == Dir &&
    forall p {:trigger Up(p)} :: p in t && p != [] ==> Up(p) in t && t[Up(p)] == Dir
  }

  predicate IsDir(t: Tree, p: Path)
  {
    p in t && t[p] == Dir
  }

  predicate IsFile(t: Tree, p: Path)
  {
    p in t && t[p].File?
  }

  /** Every entry at or below `p`. */
  ghost function Below(t: Tree, p: Path): set<Path>
  {
    set q | q in t && IsPrefix(p, q)
  }

  /** The names `read_dir(p)` lists. */
  function ChildNames(t: Tree, p: Path): set<string>
  {
    set q | q in t && |q| == |p| + 1 && IsPrefix(p, q) :: q[|p|]
  }

  /** Two trees agree at and below `p`. */
  ghost predicate SameBelow(t1: Tree, t2: Tree, p: Path)
  {
    forall q :: IsPrefix(p, q) ==> (q in t1 <==> q in t2) && (q in t1 ==> t1[q] == t2[q])
  }

  /** Every ancestor of an entry exists, and the proper ones are directories. */
  lemma {:induction false} AncestorIsDir(t: Tree, a: Path, q: Path)
    ensures WellFormed(t) && q in t && IsPrefix(a, q) ==>
              a in t && (|a| < |q| ==> t[a] == Dir)
    decreases |q|
  {
    if WellFormed(t) && q in t && IsPrefix(a, q) {
      if |a| < |q| {
        var parent := Up(q);
        assert parent in t && t[parent] == Dir;
        assert IsPrefix(a, parent) by {
          assert parent[..|a|] == q[..|a|];
        }
        AncestorIsDir(t, a, parent);
        if |a| == |parent| {
          assert a == parent[..|a|] == parent;
        }
      } else {
        assert a == q[..|a|] == q;
      }
    }
  }

  /** Nothing lies below a path that is absent. */
  lemma NothingBelowMissing(t: Tree, p: Path)
    requires WellFormed(t) && p !in t
    ensures forall q :: q in t ==> !IsPrefix(p, q)
  {
    forall q | q in t
      ensures !IsPrefix(p, q)
    {
      AncestorIsDir(t, p, q);
    }
  }

  lemma DisjointBelow(src: Path, dst: Path, q: Path)
    requires !IsPrefix(src, dst) && !IsPrefix(dst, src)
    ensures !(IsPrefix(src, q) && IsPrefix(dst, q))
  {
    PrefixesComparable(src, dst, q);
  }

  // ---------------------------------------------------------------
  // create_dir_all

  /** `create_dir_all(p)` succeeds unless some prefix of `p` is a file. */
  predicate CanCreateDirAll(t: Tree, p: Path)
  {
    forall i :: 0 <= i <= |p| ==> p[..i] !in t || t[p[..i]] == Dir
  }

  function Prefixes(p: Path): set<Path>
  {
    set i | 0 <= i <= |p| :: p[..i]
  }

  /** The tree after `create_dir_all(p)`: every missing prefix of `p` becomes a directory. */
  function CreateDirAllSpec(t: Tree, p: Path): Tree
  {
    map q | q in t.Keys + Prefixes(p) :: if q in t then t[q] else Dir
  }

  lemma CreateDirAllProperties(t: Tree, p: Path)
    requires WellFormed(t) && CanCreateDirAll(t, p)
    ensures WellFormed(CreateDirAllSpec(t, p))
    ensures IsDir(CreateDirAllSpec(t, p), p)
    ensures forall q :: q in t ==> q in CreateDirAllSpec(t, p) && CreateDirAllSpec(t, p)[q] == t[q]
    ensures forall q :: q in CreateDirAllSpec(t, p) && q !in t ==> IsPrefix(q, p)
  {
    var c := CreateDirAllSpec(t, p);
    assert p[..0] == [];
    assert p[..|p|] == p;
    forall q | q in c && q != []
      ensures Up(q) in c && c[Up(q)] == Dir
    {
      if q in t {
      } else {
        var i :| 0 <= i <= |p| && q == p[..i];
        assert Up(q) == p[..i - 1];
        assert p[..i - 1] in Prefixes(p);
      }
    }
  }

  // ---------------------------------------------------------------
  // remove_dir_all

  /** The tree after `remove_dir_all(p)`: `p` and everything below it are gone. */
  function RemoveTreeSpec(t: Tree, p: Path): Tree
  {
    map q | q in t && !IsPrefix(p, q) :: t[q]
  }

  lemma RemoveTreeWellFormed(t: Tree, p: Path)
    requires WellFormed(t) && p != []
    ensures WellFormed(RemoveTreeSpec(t, p))
  {
    var r := RemoveTreeSpec(t, p);
    assert !IsPrefix(p, []);
    forall q | q in r && q != []
      ensures Up(q) in r && r[Up(q)] == Dir
    {
      var parent := Up(q);
      PrefixTransitive(p, parent, q);
    }
  }

  // ---------------------------------------------------------------
  // The recursive copy (`copy_dir_all` / `copy_dir_all_sync`).

  /** The places below `dst` that receive a copy of an entry strictly below `src`. */
  function Image(t: Tree, src: Path, dst: Path): set<Path>
  {
    set r | r in t && IsPrefix(src, r) && |r| > |src| :: dst + r[|src|..]
  }

  lemma ImageMembership(t: Tree, src: Path, dst: Path, q: Path)
    ensures q in Image(t, src, dst) <==>
            (IsPrefix(dst, q) && |q| > |dst| && src + q[|dst|..] in t)
  {
    if IsPrefix(dst, q) && |q| > |dst| && src + q[|dst|..] in t {
      var r := src + q[|dst|..];
      assert r[|src|..] == q[|dst|..];
      assert q == q[..|dst|] + q[|dst|..];
      assert IsPrefix(src, r);
    }
    if q in Image(t, src, dst) {
      var r :| r in t && IsPrefix(src, r) && |r| > |src| && q == dst + r[|src|..];
      assert q[|dst|..] == r[|src|..];
      assert r == r[..|src|] + r[|src|..];
    }
  }

  lemma ImageSources(t: Tree, src: Path, dst: Path)
    ensures forall q :: q in Image(t, src, dst) ==>
              IsPrefix(dst, q) && |q| > |dst| && src + q[|dst|..] in t
  {
    forall q | q in Image(t, src, dst)
      ensures IsPrefix(dst, q) && |q| > |dst| && src + q[|dst|..] in t
    {
      ImageMembership(t, src, dst, q);
    }
  }

  /** Everything strictly below `src`, moved to the same relative place below `dst`. */
  function Relocate(t: Tree, src: Path, dst: Path): Tree
  {
    ImageSources(t, src, dst);
    map q | q in Image(t, src, dst) :: t[src + q[|dst|..]]
  }

  /** `Relocate` restricted to the entries whose first component below `src` is in `names`. */
  ghost function RelocateNames(t: Tree, src: Path, dst: Path, names: set<string>): Tree
  {
    ImageSources(t, src, dst);
    map q | q in Image(t, src, dst) && q[|dst|] in names :: t[src + q[|dst|..]]
  }

  /** The copy succeeds when `dst` can be created and `src` is a directory. */
  predicate CopyOk(t: Tree, src: Path, dst: Path)
  {
    CanCreateDirAll(t, dst) && IsDir(t, src)
  }

  /**
   * The tree after copying `src` to `dst`: `dst` is created, and then
   * every entry below `src` is recreated at the same relative path
   * below `dst`. When `dst` cannot be created nothing changes; when
   * `src` is not a directory only `dst` is created.
   */
  function CopySpec(t: Tree, src: Path, dst: Path): Tree
  {
    if !CanCreateDirAll(t, dst) then t
    else
      var c := CreateDirAllSpec(t, dst);
      if IsDir(c, src) then c + Relocate(c, src, dst) else c
  }

  /** Every relocated entry lies below a child of `src`. */
  lemma ImageChildName(t: Tree, src: Path, dst: Path, q: Path)
    requires WellFormed(t) && q in Image(t, src, dst)
    ensures q[|dst|] in ChildNames(t, src)
  {
    ImageMembership(t, src, dst, q);
    var r := src + q[|dst|..];
    var child := src + [q[|dst|]];
    assert child == r[..|src| + 1];
    assert IsPrefix(child, r);
    AncestorIsDir(t, child, r);
    assert child in t && |child| == |src| + 1 && IsPrefix(src, child) && child[|src|] == q[|dst|];
  }

  lemma RelocateAllNames(t: Tree, src: Path, dst: Path)
    requires WellFormed(t)
    ensures RelocateNames(t, src, dst, ChildNames(t, src)) == Relocate(t, src, dst)
  {
    forall q | q in Image(t, src, dst)
      ensures q[|dst|] in ChildNames(t, src)
    {
      ImageChildName(t, src, dst, q);
    }
  }

  lemma RelocateNamesUnion(t: Tree, src: Path, dst: Path, a: set<string>, n: string)
    ensures RelocateNames(t, src, dst, a + {n}) == RelocateNames(t, src, dst, a) + RelocateNames(t, src, dst, {n})
  {
  }

  /** Relocating a single entry `n`: its own copy plus everything below it. */
  lemma RelocateOneName(t: Tree, src: Path, dst: Path, n: string)
    requires src + [n] in t
    ensures RelocateNames(t, src, dst, {n}) == Relocate(t, src + [n], dst + [n])[dst + [n] := t[src + [n]]]
  {
    var from := src + [n];
    var to := dst + [n];
    var lhs := RelocateNames(t, src, dst, {n});
    var rhs := Relocate(t, from, to)[to := t[from]];
    assert to[|dst|..] == [n];
    assert src + to[|dst|..] == from;
    ImageMembership(t, src, dst, to);
    forall q | q in lhs
      ensures q in rhs && lhs[q] == rhs[q]
    {
      ImageMembership(t, src, dst, q);
      assert q[|dst|] == n;
      if |q| == |to| {
        assert q == q[..|dst|] + [q[|dst|]];
        assert q == to;
      } else {
        assert q[..|to|] == q[..|dst|] + [q[|dst|]];
        assert IsPrefix(to, q);
        assert q[|dst|..] == [n] + q[|to|..];
        assert src + q[|dst|..] == from + q[|to|..];
        ImageMembership(t, from, to, q);
      }
    }
    forall q | q in rhs
      ensures q in lhs
    {
      if q != to {
        ImageMembership(t, from, to, q);
        assert q[..|dst|] == q[..|to|][..|dst|];
        assert q[|dst|..] == [n] + q[|to|..];
        assert src + q[|dst|..] == from + q[|to|..];
        ImageMembership(t, src, dst, q);
      }
    }
  }

  /** `Relocate` only looks at the entries below `src`. */
  lemma RelocateSameBelow(t1: Tree, t2: Tree, src: Path, dst: Path)
    requires SameBelow(t1, t2, src)
    ensures Relocate(t1, src, dst) == Relocate(t2, src, dst)
  {
    forall q
      ensures q in Image(t1, src, dst) <==> q in Image(t2, src, dst)
    {
      ImageMembership(t1, src, dst, q);
      ImageMembership(t2, src, dst, q);
      if IsPrefix(dst, q) && |q| > |dst| {
        assert IsPrefix(src, src + q[|dst|..]);
      }
    }
    forall q | q in Image(t1, src, dst)
      ensures src + q[|dst|..] in t1 && src + q[|dst|..] in t2 && t1[src + q[|dst|..]] == t2[src + q[|dst|..]]
    {
      ImageMembership(t1, src, dst, q);
      assert IsPrefix(src, src + q[|dst|..]);
    }
  }

  /** A file has nothing below it. */
  lemma RelocateFile(t: Tree, src: Path, dst: Path)
    requires WellFormed(t) && IsFile(t, src)
    ensures Relocate(t, src, dst) == map[]
  {
    forall q
      ensures q !in Image(t, src, dst)
    {
      ImageMembership(t, src, dst, q);
      if IsPrefix(dst, q) && |q| > |dst| {
        AncestorIsDir(t, src, src + q[|dst|..]);
      }
    }
  }

  /** The keys `RelocateNames` adds all lie strictly below `dst` and outside `done`'s complement. */
  lemma RelocateNamesKeys(t: Tree, src: Path, dst: Path, done: set<string>)
    ensures forall q :: q in RelocateNames(t, src, dst, done) ==>
              IsPrefix(dst, q) && |q| > |dst| && q[|dst|] in done
  {
    ImageSources(t, src, dst);
  }

  /** Facts about the state in front of copying entry `n` of `src`. */
  lemma CopyStepFacts(c: Tree, src: Path, dst: Path, done: set<string>, n: string)
    requires WellFormed(c) && IsDir(c, dst) && src + [n] in c
    requires forall q :: q in c && IsPrefix(dst, q) ==> q == dst
    requires !IsPrefix(src, dst) && !IsPrefix(dst, src)
    requires n !in done
    ensures src + [n] in c + RelocateNames(c, src, dst, done)
    ensures (c + RelocateNames(c, src, dst, done))[src + [n]] == c[src + [n]]
    ensures dst + [n] !in c + RelocateNames(c, src, dst, done)
    ensures !IsPrefix(src + [n], dst + [n]) && !IsPrefix(dst + [n], src + [n])
    ensures SameBelow(c + RelocateNames(c, src, dst, done), c, src)
  {
    var from := src + [n];
    var to := dst + [n];
    var rel := RelocateNames(c, src, dst, done);
    RelocateNamesKeys(c, src, dst, done);
    assert IsPrefix(src, from);
    DisjointBelow(src, dst, from);
    assert IsPrefix(dst, to) && to[|dst|] == n;
    assert to != dst;
    assert !IsPrefix(from, to) by {
      assert |from| <= |to| ==> to[..|src|] == dst[..|src|];
    }
    assert !IsPrefix(to, from) by {
      assert |to| <= |from| ==> from[..|dst|] == src[..|dst|];
    }
    forall q | IsPrefix(src, q)
      ensures (q in c + rel <==> q in c) && (q in c ==> (c + rel)[q] == c[q])
    {
      DisjointBelow(src, dst, q);
    }
  }

  /** Every prefix of `p`, `p` included, is a directory. */
  ghost predicate PrefixesAreDirs(t: Tree, p: Path)
  {
    forall i :: 0 <= i <= |p| ==> IsDir(t, p[..i])
  }

  lemma DirPrefixesAreDirs(t: Tree, p: Path)
    requires WellFormed(t) && IsDir(t, p)
    ensures PrefixesAreDirs(t, p)
  {
    forall i | 0 <= i <= |p|
      ensures IsDir(t, p[..i])
    {
      assert IsPrefix(p[..i], p);
      AncestorIsDir(t, p[..i], p);
      if i == |p| {
        assert p[..i] == p;
      }
    }
  }

  /** Creating a missing child of a directory whose prefixes are all directories adds just that child. */
  lemma CreateChildDir(t: Tree, dst: Path, n: string)
    requires PrefixesAreDirs(t, dst) && dst + [n] !in t
    ensures CanCreateDirAll(t, dst + [n])
    ensures CreateDirAllSpec(t, dst + [n]) == t[dst + [n] := Dir]
  {
    var to := dst + [n];
    forall i | 0 <= i <= |to|
      ensures to[..i] !in t || t[to[..i]] == Dir
    {
      if i <= |dst| {
        assert to[..i] == dst[..i];
      } else {
        assert to[..i] == to;
      }
    }
    forall q | q in Prefixes(to)
      ensures q in t || q == to
    {
      var i :| 0 <= i <= |to| && q == to[..i];
      if i <= |dst| {
        assert q == dst[..i];
      } else {
        assert q == to;
      }
    }
    assert to[..|to|] == to;
  }

  /** One directory step of the copy loop: copying entry `n` extends the relocated part by `n`. */
  lemma {:induction false} CopyStepDir(c: Tree, src: Path, dst: Path, done: set<string>, n: string)
    requires WellFormed(c) && IsDir(c, dst) && IsDir(c, src + [n])
    requires forall q :: q in c && IsPrefix(dst, q) ==> q == dst
    requires !IsPrefix(src, dst) && !IsPrefix(dst, src)
    requires n !in done
    ensures var mid := c + RelocateNames(c, src, dst, done);
            && CanCreateDirAll(mid, dst + [n])
            && CreateDirAllSpec(mid, dst + [n]) == mid[dst + [n] := Dir]
            && IsDir(mid[dst + [n] := Dir], src + [n])
            && mid[dst + [n] := Dir] + Relocate(mid[dst + [n] := Dir], src + [n], dst + [n])
               == c + RelocateNames(c, src, dst, done + {n})
  {
    var to := dst + [n];
    var from := src + [n];
    var rel := RelocateNames(c, src, dst, done);
    var mid := c + rel;
    CopyStepFacts(c, src, dst, done, n);
    RelocateNamesKeys(c, src, dst, done);
    DirPrefixesAreDirs(c, dst);
    assert PrefixesAreDirs(mid, dst) by {
      forall i | 0 <= i <= |dst|
        ensures IsDir(mid, dst[..i])
      {
        assert dst[..i] !in rel;
      }
    }
    CreateChildDir(mid, dst, n);
    var m1 := mid[to := Dir];
    SameBelowChild(mid, c, m1, src, dst, n);
    RelocateSameBelow(m1, c, from, to);
    RelocateOneName(c, src, dst, n);
    RelocateNamesUnion(c, src, dst, done, n);
    var below := Relocate(c, from, to);
    ImageSources(c, from, to);
    assert to !in below;
    UpdateThenUnion(c, rel, below, to, Dir);
  }

  lemma SameBelowChild(mid: Tree, c: Tree, m1: Tree, src: Path, dst: Path, n: string)
    requires SameBelow(mid, c, src)
    requires m1 == mid[dst + [n] := Dir]
    requires !IsPrefix(src, dst) && !IsPrefix(dst, src)
    ensures SameBelow(m1, c, src + [n])
  {
    forall q | IsPrefix(src + [n], q)
      ensures (q in m1 <==> q in c) && (q in m1 ==> m1[q] == c[q])
    {
      PrefixTransitive(src, src + [n], q);
      DisjointBelow(src, dst, q);
      assert IsPrefix(dst, dst + [n]);
    }
  }

  lemma {:induction false} CopyStepFile(c: Tree, src: Path, dst: Path, done: set<string>, n: string)
    requires WellFormed(c) && IsDir(c, dst) && IsFile(c, src + [n])
    requires forall q :: q in c && IsPrefix(dst, q) ==> q == dst
    requires !IsPrefix(src, dst) && !IsPrefix(dst, src)
    requires n !in done
    ensures var mid := c + RelocateNames(c, src, dst, done);
            mid[dst + [n] := mid[src + [n]]] == c + RelocateNames(c, src, dst, done + {n})
  {
    var from := src + [n];
    var to := dst + [n];
    var rel := RelocateNames(c, src, dst, done);
    CopyStepFacts(c, src, dst, done, n);
    RelocateOneName(c, src, dst, n);
    RelocateNamesUnion(c, src, dst, done, n);
    RelocateFile(c, from, to);
    assert RelocateNames(c, src, dst, done + {n}) == rel + map[to := c[from]];
    UpdateOverUnion(c, rel, to, c[from]);
  }

  lemma UpdateOverUnion<K, V>(a: map<K, V>, b: map<K, V>, k: K, v: V)
    ensures (a + b)[k := v] == a + (b + map[k := v])
  {
  }

  lemma UpdateThenUnion<K, V>(a: map<K, V>, b: map<K, V>, d: map<K, V>, k: K, v: V)
    requires k !in d
    ensures (a + b)[k := v] + d == a + (b + d[k := v])
  {
  }

  // ---------------------------------------------------------------
  // Which entries a step can touch.

  /** Neither path lies at or below the other. */
  predicate Separate(a: Path, b: Path)
  {
    !IsPrefix(a, b) && !IsPrefix(b, a)
  }

  lemma SeparateChild(a: Path, b: Path, x: string)
    requires Separate(a, b)
    ensures Separate(a + [x], b)
  {
    assert IsPrefix(a, a + [x]);
    if IsPrefix(a + [x], b) {
      PrefixTransitive(a, a + [x], b);
    }
    if |b| <= |a| {
      assert (a + [x])[..|b|] == a[..|b|];
    } else {
      assert IsPrefix(b, a + [x]) && |b| == |a| + 1 ==> b == a + [x];
      assert b[..|a|] == b[..|a|];
    }
  }

  lemma SeparateChildren(a: Path, b: Path, x: string, y: string)
    requires Separate(a, b)
    ensures Separate(a + [x], b + [y])
  {
    SeparateChild(a, b, x);
    SeparateChild(b, a + [x], y);
  }

  /** Only entries at or above `x`, or below it, differ between the two trees. */
  ghost predicate ChangedAround(t1: Tree, t2: Tree, x: Path)
  {
    forall q :: !IsPrefix(q, x) && !IsPrefix(x, q) ==> (q in t1 <==> q in t2) && (q in t1 ==> t1[q] == t2[q])
  }

  /** Only entries at or above `x` differ between the two trees. */
  ghost predicate ChangedAbove(t1: Tree, t2: Tree, x: Path)
  {
    forall q :: !IsPrefix(q, x) ==> (q in t1 <==> q in t2) && (q in t1 ==> t1[q] == t2[q])
  }

  lemma AroundKeepsSeparate(t1: Tree, t2: Tree, x: Path, s: Path)
    requires ChangedAround(t1, t2, x) && Separate(x, s)
    ensures SameBelow(t1, t2, s)
  {
    forall q | IsPrefix(s, q)
      ensures (q in t1 <==> q in t2) && (q in t1 ==> t1[q] == t2[q])
    {
      PrefixTransitive(s, q, x);
      PrefixesComparable(x, s, q);
    }
  }

  lemma AboveKeepsOthers(t1: Tree, t2: Tree, x: Path, s: Path)
    requires ChangedAbove(t1, t2, x) && !IsPrefix(s, x)
    ensures SameBelow(t1, t2, s)
  {
    forall q | IsPrefix(s, q)
      ensures (q in t1 <==> q in t2) && (q in t1 ==> t1[q] == t2[q])
    {
      PrefixTransitive(s, q, x);
    }
  }

  lemma SameBelowTransitive(t1: Tree, t2: Tree, t3: Tree, s: Path)
    requires SameBelow(t1, t2, s) && SameBelow(t2, t3, s)
    ensures SameBelow(t1, t3, s)
  {
  }

  lemma SameBelowSymmetric(t1: Tree, t2: Tree, s: Path)
    requires SameBelow(t1, t2, s)
    ensures SameBelow(t2, t1, s)
  {
  }

  lemma CreateChangesAbove(t: Tree, p: Path)
    ensures ChangedAbove(t, CreateDirAllSpec(t, p), p)
  {
  }

  lemma RemoveChangesAround(t: Tree, p: Path)
    ensures ChangedAround(t, RemoveTreeSpec(t, p), p)
  {
  }

  lemma CopyChangesAround(t: Tree, src: Path, dst: Path)
    ensures ChangedAround(t, CopySpec(t, src, dst), dst)
  {
    if CanCreateDirAll(t, dst) {
      var c := CreateDirAllSpec(t, dst);
      if IsDir(c, src) {
        ImageSources(c, src, dst);
      }
    }
  }

  /** `dst` in `t2` holds, at every relative path, exactly what `src` holds in `t1`. */
  ghost predicate Mirrors(t2: Tree, dst: Path, t1: Tree, src: Path)
  {
    && IsDir(t2, dst)
    && (forall s :: |s| > 0 ==> (dst + s in t2 <==> src + s in t1))
    && (forall s :: |s| > 0 && src + s in t1 ==> t2[dst + s] == t1[src + s])
  }

  lemma MirrorsKeptAtDst(t2: Tree, t3: Tree, dst: Path, t1: Tree, src: Path)
    requires Mirrors(t2, dst, t1, src) && SameBelow(t2, t3, dst)
    ensures Mirrors(t3, dst, t1, src)
  {
    assert IsPrefix(dst, dst);
    forall s | |s| > 0
      ensures dst + s in t2 <==> dst + s in t3
      ensures dst + s in t2 ==> t2[dst + s] == t3[dst + s]
    {
      assert IsPrefix(dst, dst + s);
    }
  }

  lemma MirrorsKeptAtSrc(t2: Tree, dst: Path, t1: Tree, t0: Tree, src: Path)
    requires Mirrors(t2, dst, t1, src) && SameBelow(t1, t0, src)
    ensures Mirrors(t2, dst, t0, src)
  {
    forall s | |s| > 0
      ensures src + s in t1 <==> src + s in t0
      ensures src + s in t1 ==> t1[src + s] == t0[src + s]
    {
      assert IsPrefix(src, src + s);
    }
  }

  /** A successful copy into a fresh `dst` mirrors `src`. */
  lemma CopyMirrorsSource(t: Tree, src: Path, dst: Path)
    requires WellFormed(t) && CopyOk(t, src, dst) && dst !in t && Separate(src, dst)
    ensures Mirrors(CopySpec(t, src, dst), dst, t, src)
  {
    CopyMirrors(t, src, dst);
  }

  /** The parent of a relocated entry is `dst` or another relocated directory. */
  lemma RelocatedParent(c: Tree, src: Path, dst: Path, q: Path)
    requires WellFormed(c) && IsDir(c, dst) && q in Relocate(c, src, dst)
    ensures q[..|q| - 1] == dst || (q[..|q| - 1] in Relocate(c, src, dst) && Relocate(c, src, dst)[q[..|q| - 1]] == Dir)
  {
    ImageMembership(c, src, dst, q);
    var s := q[|dst|..];
    assert q == dst + s;
    if |s| > 1 {
      var p := q[..|q| - 1];
      var sp := s[..|s| - 1];
      var from := src + s;
      assert from in c && from != [];
      assert Up(from) == src + sp;
      assert src + sp in c && c[src + sp] == Dir;
      assert p == dst + sp;
      assert p[|dst|..] == sp;
      ImageMembership(c, src, dst, p);
      assert p in Image(c, src, dst);
      assert Relocate(c, src, dst)[p] == c[src + sp];
    }
  }

  /** `remove_file(p)` on a file: the tree without that one entry. */
  function RemoveFileSpec(t: Tree, p: Path): Tree
  {
    map q | q in t && q != p :: t[q]
  }

  /** Removing a file keeps the tree well formed. */
  lemma RemoveFileWellFormed(t: Tree, p: Path)
    requires WellFormed(t) && IsFile(t, p)
    ensures WellFormed(RemoveFileSpec(t, p))
  {
    forall q | q in t && q != [] && Up(q) == p
      ensures false
    {
    }
  }

  /** A successful copy into a fresh `dst` leaves a well-formed tree. */
  lemma CopyWellFormed(t: Tree, src: Path, dst: Path)
    requires WellFormed(t) && CopyOk(t, src, dst) && dst !in t && Separate(src, dst)
    ensures WellFormed(CopySpec(t, src, dst))
  {
    var c := CreateDirAllSpec(t, dst);
    CopySetup(t, src, dst);
    var rel := Relocate(c, src, dst);
    var r := c + rel;
    assert CopySpec(t, src, dst) == r;
    forall q | q in rel
      ensures q !in c
    {
      ImageMembership(c, src, dst, q);
    }
    forall q | q in r && q != []
      ensures Up(q) in r && r[Up(q)] == Dir
    {
      if q in rel {
        RelocatedParent(c, src, dst, q);
      }
    }
  }

  // ---------------------------------------------------------------
  // The file system as a mutable object.

  class Fs {
    var tree: Tree

    ghost predicate Valid()
      reads this
    {
      WellFormed(tree)
    }

    constructor (t: Tree)
      requires WellFormed(t)
      ensures tree == t && Valid()
    {
      tree := t;
    }

    /** `create_dir_all(p)`. */
    method CreateDirAll(p: Path) returns (ok: bool)
      requires Valid()
      modifies this
      ensures Valid()
      ensures ok == CanCreateDirAll(old(tree), p)
      ensures tree == if ok then CreateDirAllSpec(old(tree), p) else old(tree)
    {
      ok := CanCreateDirAll(tree, p);
      if ok {
        CreateDirAllProperties(tree, p);
        tree := CreateDirAllSpec(tree, p);
      }
    }

    /** `remove_dir_all(p)`: fails unless `p` is a directory. */
    method RemoveDirAll(p: Path) returns (ok: bool)
      requires Valid() && p != []
      modifies this
      ensures Valid()
      ensures ok == IsDir(old(tree), p)
      ensures tree == if ok then RemoveTreeSpec(old(tree), p) else old(tree)
    {
      ok := IsDir(tree, p);
      if ok {
        RemoveTreeWellFormed(tree, p);
        tree := RemoveTreeSpec(tree, p);
      }
    }

    /** `remove_file(p)`: fails unless `p` is a file. */
    method RemoveFile(p: Path) returns (ok: bool)
      requires Valid()
      modifies this
      ensures Valid()
      ensures ok == IsFile(old(tree), p)
      ensures tree == if ok then RemoveFileSpec(old(tree), p) else old(tree)
    {
      ok := IsFile(tree, p);
      if ok {
        RemoveFileWellFormed(tree, p);
        tree := RemoveFileSpec(tree, p);
      }
    }

    /** `write(p, content)`: needs an existing parent directory and `p` not a directory. */
    method WriteFile(p: Path, content: string) returns (ok: bool)
      requires Valid()
      modifies this
      ensures Valid()
      ensures ok == (p != [] && IsDir(old(tree), p[..|p| - 1]) && !IsDir(old(tree), p))
      ensures tree == if ok then old(tree)[p := File(content)] else old(tree)
    {
      ok := p != [] && IsDir(tree, p[..|p| - 1]) && !IsDir(tree, p);
      if ok {
        tree := tree[p := File(content)];
      }
    }

    /**
     * `copy_dir_all(src, dst)`: create `dst`, then for each entry of
     * `src` (in `read_dir` order, which is unspecified) recurse into a
     * directory or copy a file. `dst` must not exist yet and neither
     * path may lie below the other.
     */
    method CopyDirAll(src: Path, dst: Path) returns (ok: bool)
      requires Valid()
      requires dst !in tree
      requires !IsPrefix(src, dst) && !IsPrefix(dst, src)
      modifies this
      ensures Valid()
      ensures ok == CopyOk(old(tree), src, dst)
      ensures tree == CopySpec(old(tree), src, dst)
      decreases |Below(tree, src)|
    {
      ghost var t0 := tree;
      ok := CreateDirAll(dst);
      if !ok {
        return;
      }
      ghost var c := tree;
      CopySetup(t0, src, dst);
      if !IsDir(tree, src) {
        ok := false;
        return;
      }
      CopyFinish(t0, src, dst);
      var names := ChildNames(tree, src);
      ghost var all := names;
      ghost var done: set<string> := {};
      while names != {}
        invariant Valid()
        invariant all == ChildNames(c, src)
        invariant names !! done && names + done == all
        invariant tree == c + RelocateNames(c, src, dst, done)
        decreases names
      {
        var n :| n in names;
        assert n in all;
        ChildInTree(c, src, n);
        CopyStepEntry(c, src, dst, done, n);
        if tree[src + [n]] == Dir {
          CopyDirStep(t0, c, src, dst, done, n);
          var _ := CopyDirAll(src + [n], dst + [n]);
        } else {
          CopyFileStep(c, src, dst, done, n);
          tree := tree[dst + [n] := tree[src + [n]]];
        }
        MoveName(names, done, n);
        names := names - {n};
        done := done + {n};
      }
    }
  }

  /** Moving one name from the pending set to the finished set. */
  lemma MoveName(names: set<string>, done: set<string>, n: string)
    requires n in names && names !! done
    ensures (names - {n}) !! (done + {n}) && (names - {n}) + (done + {n}) == names + done
  {
  }

  /** The state right after `create_dir_all(dst)` at the start of the copy. */
  lemma CopySetup(t0: Tree, src: Path, dst: Path)
    requires WellFormed(t0) && dst !in t0 && CanCreateDirAll(t0, dst)
    requires !IsPrefix(src, dst) && !IsPrefix(dst, src)
    ensures var c := CreateDirAllSpec(t0, dst);
            && WellFormed(c) && IsDir(c, dst)
            && SameBelow(c, t0, src)
            && (forall q :: q in c && IsPrefix(dst, q) ==> q == dst)
            && (IsDir(c, src) <==> IsDir(t0, src))
            && c + RelocateNames(c, src, dst, {}) == c
            && (!IsDir(c, src) ==> CopySpec(t0, src, dst) == c)
  {
    var c := CreateDirAllSpec(t0, dst);
    CreateDirAllProperties(t0, dst);
    DisjointBelow(src, dst, src);
    forall q | IsPrefix(src, q)
      ensures (q in c <==> q in t0) && (q in c ==> c[q] == t0[q])
    {
      PrefixTransitive(src, q, dst);
    }
    NothingBelowMissing(t0, dst);
    forall q | q in c && IsPrefix(dst, q)
      ensures q == dst
    {
      if q !in t0 {
        assert IsPrefix(q, dst);
      }
    }
    assert IsPrefix(src, src);
  }

  /**
   * What a successful copy leaves behind: `dst` is a directory holding,
   * at every relative path, exactly the entry `src` holds there, and
   * every entry that existed before is unchanged.
   */
  lemma {:induction false} CopyMirrors(t: Tree, src: Path, dst: Path)
    requires WellFormed(t) && CopyOk(t, src, dst) && dst !in t
    requires !IsPrefix(src, dst) && !IsPrefix(dst, src)
    ensures IsDir(CopySpec(t, src, dst), dst)
    ensures forall s :: |s| > 0 ==> (dst + s in CopySpec(t, src, dst) <==> src + s in t)
    ensures forall s :: |s| > 0 && src + s in t ==> CopySpec(t, src, dst)[dst + s] == t[src + s]
    ensures forall q :: q in t ==> q in CopySpec(t, src, dst) && CopySpec(t, src, dst)[q] == t[q]
    ensures forall q :: q in CopySpec(t, src, dst) && q !in t ==> IsPrefix(q, dst) || IsPrefix(dst, q)
  {
    var c := CreateDirAllSpec(t, dst);
    CopySetup(t, src, dst);
    CreateDirAllProperties(t, dst);
    var r := Relocate(c, src, dst);
    assert CopySpec(t, src, dst) == c + r;
    forall s | |s| > 0
      ensures dst + s in r <==> src + s in t
      ensures dst + s !in c
    {
      ImageMembership(c, src, dst, dst + s);
      assert (dst + s)[|dst|..] == s;
      assert IsPrefix(src, src + s);
      assert IsPrefix(dst, dst + s);
    }
    forall q | q in r
      ensures IsPrefix(dst, q) && q !in c
    {
      ImageMembership(c, src, dst, q);
      assert q == dst + q[|dst|..];
    }
    forall s | |s| > 0 && src + s in t
      ensures (c + r)[dst + s] == t[src + s]
    {
      assert (dst + s)[|dst|..] == s;
      assert IsPrefix(src, src + s);
    }
  }

  /** Once every entry of `src` is copied the tree is the one `CopySpec` describes. */
  lemma CopyFinish(t0: Tree, src: Path, dst: Path)
    requires WellFormed(t0) && CanCreateDirAll(t0, dst)
    requires IsDir(CreateDirAllSpec(t0, dst), src)
    ensures var c := CreateDirAllSpec(t0, dst);
            c + RelocateNames(c, src, dst, ChildNames(c, src)) == CopySpec(t0, src, dst)
  {
    CreateDirAllProperties(t0, dst);
    RelocateAllNames(CreateDirAllSpec(t0, dst), src, dst);
  }

  /** Entry `n` is still untouched in front of its own step. */
  lemma CopyStepEntry(c: Tree, src: Path, dst: Path, done: set<string>, n: string)
    requires WellFormed(c) && IsDir(c, dst) && src + [n] in c
    requires forall q :: q in c && IsPrefix(dst, q) ==> q == dst
    requires !IsPrefix(src, dst) && !IsPrefix(dst, src)
    requires n !in done
    ensures src + [n] in c + RelocateNames(c, src, dst, done)
    ensures (c + RelocateNames(c, src, dst, done))[src + [n]] == c[src + [n]]
  {
    CopyStepFacts(c, src, dst, done, n);
  }

  /** A directory entry: the recursive call is allowed, smaller, and extends the copy by `n`. */
  lemma CopyDirStep(t0: Tree, c: Tree, src: Path, dst: Path, done: set<string>, n: string)
    requires WellFormed(t0) && SameBelow(c, t0, src)
    requires WellFormed(c) && IsDir(c, dst) && IsDir(c, src + [n])
    requires forall q :: q in c && IsPrefix(dst, q) ==> q == dst
    requires !IsPrefix(src, dst) && !IsPrefix(dst, src)
    requires n !in done
    ensures var mid := c + RelocateNames(c, src, dst, done);
            && dst + [n] !in mid
            && !IsPrefix(src + [n], dst + [n]) && !IsPrefix(dst + [n], src + [n])
            && |Below(mid, src + [n])| < |Below(t0, src)|
            && CopySpec(mid, src + [n], dst + [n]) == c + RelocateNames(c, src, dst, done + {n})
  {
    CopyStepFacts(c, src, dst, done, n);
    CopyStepDir(c, src, dst, done, n);
    assert src + [n] in t0;
    BelowShrinks(t0, c, c + RelocateNames(c, src, dst, done), src, n);
  }

  /** A file entry: writing its copy keeps the tree well formed and extends the copy by `n`. */
  lemma CopyFileStep(c: Tree, src: Path, dst: Path, done: set<string>, n: string)
    requires WellFormed(c) && IsDir(c, dst) && IsFile(c, src + [n])
    requires WellFormed(c + RelocateNames(c, src, dst, done))
    requires forall q :: q in c && IsPrefix(dst, q) ==> q == dst
    requires !IsPrefix(src, dst) && !IsPrefix(dst, src)
    requires n !in done
    ensures var mid := c + RelocateNames(c, src, dst, done);
            && WellFormed(mid[dst + [n] := mid[src + [n]]])
            && mid[dst + [n] := mid[src + [n]]] == c + RelocateNames(c, src, dst, done + {n})
  {
    var mid := c + RelocateNames(c, src, dst, done);
    CopyStepFacts(c, src, dst, done, n);
    CopyStepFile(c, src, dst, done, n);
    RelocateNamesKeys(c, src, dst, done);
    assert dst + [n] != [];
    assert (dst + [n])[..|dst + [n]| - 1] == dst;
    assert dst !in RelocateNames(c, src, dst, done);
    AddFileWellFormed(mid, dst + [n], mid[src + [n]]);
  }

  lemma ChildInTree(c: Tree, src: Path, n: string)
    requires n in ChildNames(c, src)
    ensures src + [n] in c
  {
    var q :| q in c && |q| == |src| + 1 && IsPrefix(src, q) && q[|src|] == n;
    assert q == q[..|src|] + [q[|src|]];
  }

  lemma AddFileWellFormed(t: Tree, p: Path, node: Node)
    requires WellFormed(t) && p != [] && IsDir(t, p[..|p| - 1]) && p !in t
    ensures WellFormed(t[p := node])
  {
  }

  /** The recursive call copies a strictly smaller part of the tree. */
  lemma BelowShrinks(t0: Tree, c: Tree, mid: Tree, src: Path, n: string)
    requires WellFormed(t0)
    requires SameBelow(c, t0, src) && SameBelow(mid, c, src)
    requires src + [n] in t0
    ensures |Below(mid, src + [n])| < |Below(t0, src)|
  {
    var small := Below(mid, src + [n]);
    var big := Below(t0, src);
    forall q | q in small
      ensures q in big
    {
      PrefixTransitive(src, src + [n], q);
    }
    AncestorIsDir(t0, src, src + [n]);
    assert src in big - small;
    assert big == small + (big - small);
  }
}
