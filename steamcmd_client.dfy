// The SteamCMD downloader of the backend: how requested mod IDs are
// spread over at most four parallel SteamCMD instances (round robin, or
// greedy least-loaded by size), the script each instance runs, the
// polling rule that decides a mod folder has arrived, how batch results
// are combined, and the registry of downloads in flight.
//
// SteamCMD itself, the processes, the file-system watcher and the sleeps
// are not modelled: what an instance produces is an input (a function
// from batch to result) and the state of a download folder over time is
// an input (`probe`, a function from elapsed seconds to folder state).

module SteamCmdClient {
  import opened Common

  /** RimWorld's Steam application ID. */
  const RimWorldAppId: string := "294100"

  /** Never more SteamCMD instances than this at once. */
  const MaxParallelInstances: nat := 4

  /** The detector of the backend gives up after this many seconds ... */
  const DetectTimeout: nat := 600

  /** ... and looks at the folder at least this often (the watcher's receive timeout). */
  const DetectInterval: nat := 2

  /** A mod folder SteamCMD produced. */
  datatype DownloadedMod = DownloadedMod(modId: string, modPath: Path, folder: Option<string>)

  /** Where SteamCMD puts RimWorld workshop content, below its own directory. */
  function DownloadPathOf(steamcmd: Path): (r: Path)
    ensures IsPrefix(steamcmd, r) && |r| == |steamcmd| + 4
    ensures r[|steamcmd|..] == ["steamapps", "workshop", "content", RimWorldAppId]
  {
    steamcmd + ["steamapps", "workshop", "content", RimWorldAppId]
  }

  // ---------------------------------------------------------------
  // Splitting the requested IDs into batches.

  /** Number of instances for `count` mods: as many as mods, at most four. */
  function NumInstances(count: nat): (k: nat)
    ensures k <= MaxParallelInstances && k <= count
    ensures k == count || k == MaxParallelInstances
    ensures count > 0 ==> k > 0
  {
    if count < MaxParallelInstances then count else MaxParallelInstances
  }

  /** All batches one after the other. */
  function Flatten<T>(s: seq<seq<T>>): seq<T>
  {
    if |s| == 0 then [] else s[0] + Flatten(s[1..])
  }

  lemma {:induction false} FlattenEmpties<T>(s: seq<seq<T>>)
    requires forall i :: 0 <= i < |s| ==> s[i] == []
    ensures Flatten(s) == []
  {
    if |s| > 0 {
      FlattenEmpties(s[1..]);
    }
  }

  /** Appending `x` to one batch adds `x` once to the whole. */
  lemma {:induction false} FlattenAppend<T>(s: seq<seq<T>>, j: nat, x: T)
    requires j < |s|
    ensures multiset(Flatten(s[j := s[j] + [x]])) == multiset(Flatten(s)) + multiset{x}
  {
    var t := s[j := s[j] + [x]];
    var rest := Flatten(s[1..]);
    assert Flatten(s) == s[0] + rest;
    if j == 0 {
      assert t[1..] == s[1..];
      assert Flatten(t) == (s[0] + [x]) + rest;
      assert multiset(Flatten(t)) == multiset(s[0]) + multiset{x} + multiset(rest);
    } else {
      var tail := s[1..][j - 1 := s[j] + [x]];
      assert t[1..] == tail;
      FlattenAppend(s[1..], j - 1, x);
      assert Flatten(t) == s[0] + Flatten(tail);
      assert multiset(Flatten(t)) == multiset(s[0]) + multiset(Flatten(tail));
    }
  }

  /** Batch `b` of a round-robin split into `n`: the IDs whose position is `b` modulo `n`, in order. */
  function Column(ids: seq<string>, n: nat, b: nat): seq<string>
    requires n > 0
  {
    if |ids| == 0 then []
    else Column(ids[..|ids| - 1], n, b) + (if (|ids| - 1) % n == b then [ids[|ids| - 1]] else [])
  }

  /** One more position adds one to batch `b`'s share exactly when the position is `b` modulo `n`. */
  lemma ShareStep(m: nat, n: nat, b: nat)
    requires n > 0 && b < n && m > 0
    ensures (m + n - 1 - b) / n == (m + n - 2 - b) / n + (if (m - 1) % n == b then 1 else 0)
  {
    var y := m + n - 2 - b;
    var q := y / n;
    var r := y % n;
    assert y == q * n + r;
    if r + 1 < n {
      DivModUnique(y + 1, n, q, r + 1);
      if r + 1 + b < n {
        DivModUnique(m - 1, n, q - 1, r + 1 + b);
      } else {
        DivModUnique(m - 1, n, q, r + 1 + b - n);
      }
    } else {
      DivModUnique(y + 1, n, q + 1, 0);
      DivModUnique(m - 1, n, q, b);
    }
  }

  /** Each batch holds its share of positions: `ceil((|ids| - b) / n)` of them. */
  lemma {:induction false} ColumnLength(ids: seq<string>, n: nat, b: nat)
    requires n > 0 && b < n
    ensures |Column(ids, n, b)| == (|ids| + n - 1 - b) / n
  {
    var m := |ids|;
    if m == 0 {
      DivModUnique(n - 1 - b, n, 0, n - 1 - b);
    } else {
      ColumnLength(ids[..m - 1], n, b);
      ShareStep(m, n, b);
    }
  }

  lemma {:induction false} ColumnPrefix(ids: seq<string>, n: nat, b: nat, m: nat)
    requires n > 0 && m <= |ids|
    ensures IsPrefix(Column(ids[..m], n, b), Column(ids, n, b))
    decreases |ids|
  {
    if m < |ids| {
      var shorter := ids[..|ids| - 1];
      assert shorter[..m] == ids[..m];
      ColumnPrefix(shorter, n, b, m);
      PrefixTransitive(Column(ids[..m], n, b), Column(shorter, n, b), Column(ids, n, b));
    } else {
      assert ids[..m] == ids;
    }
  }

  /** The ID at position `i` is element `i / n` of batch `i % n`. */
  lemma RoundRobinPosition(ids: seq<string>, n: nat, i: nat)
    requires n > 0 && i < |ids|
    ensures i / n < |Column(ids, n, i % n)|
    ensures Column(ids, n, i % n)[i / n] == ids[i]
  {
    var b := i % n;
    var q := i / n;
    assert i == q * n + b;
    var upto := ids[..i + 1];
    assert upto[..i] == ids[..i];
    assert Column(upto, n, b) == Column(ids[..i], n, b) + [ids[i]];
    ColumnLength(ids[..i], n, b);
    DivModUnique(i + n - 1 - b, n, q, n - 1);
    ColumnPrefix(ids, n, b, i + 1);
  }

  /** The round-robin columns together hold every ID exactly as often as it was requested. */
  lemma {:induction false} RoundRobinPartition(ids: seq<string>, n: nat)
    requires n > 0
    ensures multiset(Flatten(seq(n, b requires 0 <= b < n => Column(ids, n, b)))) == multiset(ids)
  {
    var cols := seq(n, b requires 0 <= b < n => Column(ids, n, b));
    if |ids| == 0 {
      FlattenEmpties(cols);
    } else {
      var init := ids[..|ids| - 1];
      var k := (|ids| - 1) % n;
      var prev := seq(n, b requires 0 <= b < n => Column(init, n, b));
      RoundRobinPartition(init, n);
      var next := prev[k := prev[k] + [ids[|ids| - 1]]];
      assert |cols| == |next|;
      forall b | 0 <= b < n
        ensures cols[b] == next[b]
      {
        assert cols[b] == Column(init, n, b) + (if k == b then [ids[|ids| - 1]] else []);
      }
      assert cols == next;
      FlattenAppend(prev, k, ids[|ids| - 1]);
      assert ids == init + [ids[|ids| - 1]];
    }
  }

  /**
   * `balance_mods_round_robin`: the ID at position `i` goes to batch
   * `i % n`. The batches are the columns above and together hold every
   * requested ID exactly as often as it was requested.
   */
  method BalanceRoundRobin(ids: seq<string>, n: nat) returns (batches: seq<seq<string>>)
    requires n > 0
    ensures |batches| == n
    ensures forall b :: 0 <= b < n ==> batches[b] == Column(ids, n, b)
    ensures multiset(Flatten(batches)) == multiset(ids)
  {
    batches := seq(n, _ => []);
    FlattenEmpties(batches);
    for i := 0 to |ids|
      invariant RoundRobinSoFar(batches, ids[..i], n)
    {
      RoundRobinStep(batches, ids, n, i);
      batches := batches[i % n := batches[i % n] + [ids[i]]];
    }
    assert ids[..|ids|] == ids;
  }

  /** The batches after the IDs in `done`: the columns of `done`, holding `done` between them. */
  ghost predicate RoundRobinSoFar(batches: seq<seq<string>>, done: seq<string>, n: nat)
    requires n > 0
  {
    && |batches| == n
    && (forall b :: 0 <= b < n ==> batches[b] == Column(done, n, b))
    && multiset(Flatten(batches)) == multiset(done)
  }

  /** Appending the ID at position `i` to batch `i % n` extends the columns by that position. */
  lemma RoundRobinStep(batches: seq<seq<string>>, ids: seq<string>, n: nat, i: nat)
    requires n > 0 && i < |ids| && RoundRobinSoFar(batches, ids[..i], n)
    ensures RoundRobinSoFar(batches[i % n := batches[i % n] + [ids[i]]], ids[..i + 1], n)
  {
    FlattenAppend(batches, i % n, ids[i]);
    assert ids[..i + 1] == ids[..i] + [ids[i]];
    var next := batches[i % n := batches[i % n] + [ids[i]]];
    forall b | 0 <= b < n
      ensures next[b] == Column(ids[..i + 1], n, b)
    {
      ColumnStep(ids, n, b, i);
    }
  }

  /** Position `i` joins batch `b` exactly when `i` is `b` modulo `n`. */
  lemma ColumnStep(ids: seq<string>, n: nat, b: nat, i: nat)
    requires n > 0 && i < |ids|
    ensures Column(ids[..i + 1], n, b) == Column(ids[..i], n, b) + (if i % n == b then [ids[i]] else [])
  {
    assert ids[..i + 1][..i] == ids[..i];
  }

  // ---------------------------------------------------------------
  // Size-based balancing.

  /** A mod's size; mods without a known size count as 0. */
  function SizeOf(sizes: map<string, nat>, id: string): nat
  {
    if id in sizes then sizes[id] else 0
  }

  ghost predicate SortedBySizeDesc(s: seq<string>, sizes: map<string, nat>)
  {
    forall i, j :: 0 <= i < j < |s| ==> SizeOf(sizes, s[i]) >= SizeOf(sizes, s[j])
  }

  /** The IDs of `s` whose size is `v`, in order. */
  function WithSize(s: seq<string>, sizes: map<string, nat>, v: nat): seq<string>
  {
    if |s| == 0 then []
    else (if SizeOf(sizes, s[0]) == v then [s[0]] else []) + WithSize(s[1..], sizes, v)
  }

  lemma {:induction false} WithSizeAppend(a: seq<string>, b: seq<string>, sizes: map<string, nat>, v: nat)
    ensures WithSize(a + b, sizes, v) == WithSize(a, sizes, v) + WithSize(b, sizes, v)
  {
    if |a| > 0 {
      var ab := a + b;
      assert ab[0] == a[0] && ab[1..] == a[1..] + b;
      WithSizeAppend(a[1..], b, sizes, v);
    } else {
      assert a + b == b;
    }
  }

  lemma {:induction false} WithSizeNone(s: seq<string>, sizes: map<string, nat>, v: nat)
    requires forall i :: 0 <= i < |s| ==> SizeOf(sizes, s[i]) < v
    ensures WithSize(s, sizes, v) == []
  {
    if |s| > 0 {
      WithSizeNone(s[1..], sizes, v);
    }
  }

  /** Places `id` after every entry at least as large, so equal sizes keep their arrival order. */
  function InsertBySize(sorted: seq<string>, id: string, sizes: map<string, nat>): seq<string>
  {
    if |sorted| == 0 then [id]
    else if SizeOf(sizes, sorted[0]) >= SizeOf(sizes, id) then [sorted[0]] + InsertBySize(sorted[1..], id, sizes)
    else [id] + sorted
  }

  /** `sort_by(|a, b| b.1.cmp(&a.1))`: a stable sort, largest size first. */
  function SortBySizeDesc(ids: seq<string>, sizes: map<string, nat>): seq<string>
  {
    if |ids| == 0 then []
    else InsertBySize(SortBySizeDesc(ids[..|ids| - 1], sizes), ids[|ids| - 1], sizes)
  }

  lemma {:induction false} InsertBySizeMultiset(sorted: seq<string>, id: string, sizes: map<string, nat>)
    ensures multiset(InsertBySize(sorted, id, sizes)) == multiset(sorted) + multiset{id}
  {
    if |sorted| > 0 && SizeOf(sizes, sorted[0]) >= SizeOf(sizes, id) {
      InsertBySizeMultiset(sorted[1..], id, sizes);
      assert sorted == [sorted[0]] + sorted[1..];
    }
  }

  lemma {:induction false} InsertBySizeBound(sorted: seq<string>, id: string, sizes: map<string, nat>, m: nat)
    requires forall k :: 0 <= k < |sorted| ==> SizeOf(sizes, sorted[k]) <= m
    requires SizeOf(sizes, id) <= m
    ensures forall k :: 0 <= k < |InsertBySize(sorted, id, sizes)| ==> SizeOf(sizes, InsertBySize(sorted, id, sizes)[k]) <= m
  {
    var r := InsertBySize(sorted, id, sizes);
    if |sorted| > 0 && SizeOf(sizes, sorted[0]) >= SizeOf(sizes, id) {
      InsertBySizeBound(sorted[1..], id, sizes, m);
      assert r == [sorted[0]] + InsertBySize(sorted[1..], id, sizes);
    } else {
      assert r == [id] + sorted;
    }
  }

  lemma {:induction false} InsertBySizeSorted(sorted: seq<string>, id: string, sizes: map<string, nat>)
    requires SortedBySizeDesc(sorted, sizes)
    ensures SortedBySizeDesc(InsertBySize(sorted, id, sizes), sizes)
  {
    if |sorted| > 0 && SizeOf(sizes, sorted[0]) >= SizeOf(sizes, id) {
      var top := SizeOf(sizes, sorted[0]);
      var r := InsertBySize(sorted, id, sizes);
      var rest := InsertBySize(sorted[1..], id, sizes);
      InsertBySizeSorted(sorted[1..], id, sizes);
      assert forall k :: 0 <= k < |sorted[1..]| ==> SizeOf(sizes, sorted[1..][k]) <= top by {
        forall k | 0 <= k < |sorted[1..]|
          ensures SizeOf(sizes, sorted[1..][k]) <= top
        {
          assert sorted[1..][k] == sorted[k + 1];
        }
      }
      InsertBySizeBound(sorted[1..], id, sizes, top);
      assert r == [sorted[0]] + rest;
      forall i, j | 0 <= i < j < |r|
        ensures SizeOf(sizes, r[i]) >= SizeOf(sizes, r[j])
      {
        assert r[j] == rest[j - 1];
        assert SizeOf(sizes, rest[j - 1]) <= top;
        if i > 0 {
          assert r[i] == rest[i - 1];
          assert SortedBySizeDesc(rest, sizes);
          assert SizeOf(sizes, rest[i - 1]) >= SizeOf(sizes, rest[j - 1]);
        }
      }
    }
  }

  lemma {:induction false} InsertBySizeStable(sorted: seq<string>, id: string, sizes: map<string, nat>, v: nat)
    requires SortedBySizeDesc(sorted, sizes)
    ensures WithSize(InsertBySize(sorted, id, sizes), sizes, v)
            == WithSize(sorted, sizes, v) + (if SizeOf(sizes, id) == v then [id] else [])
  {
    var r := InsertBySize(sorted, id, sizes);
    if |sorted| == 0 {
    } else if SizeOf(sizes, sorted[0]) >= SizeOf(sizes, id) {
      var head := if SizeOf(sizes, sorted[0]) == v then [sorted[0]] else [];
      var tail := InsertBySize(sorted[1..], id, sizes);
      assert r == [sorted[0]] + tail;
      assert r[0] == sorted[0] && r[1..] == tail;
      assert SortedBySizeDesc(sorted[1..], sizes) by {
        forall i, j | 0 <= i < j < |sorted[1..]|
          ensures SizeOf(sizes, sorted[1..][i]) >= SizeOf(sizes, sorted[1..][j])
        {
          assert sorted[1..][i] == sorted[i + 1] && sorted[1..][j] == sorted[j + 1];
        }
      }
      InsertBySizeStable(sorted[1..], id, sizes, v);
      assert WithSize(r, sizes, v) == head + WithSize(tail, sizes, v);
      assert WithSize(sorted, sizes, v) == head + WithSize(sorted[1..], sizes, v);
    } else {
      assert r[1..] == sorted;
      if SizeOf(sizes, id) == v {
        WithSizeNone(sorted, sizes, v);
      }
    }
  }

  /** The sort is sorted largest first and a permutation of the input. */
  lemma {:induction false} SortBySizeDescSorted(ids: seq<string>, sizes: map<string, nat>)
    ensures SortedBySizeDesc(SortBySizeDesc(ids, sizes), sizes)
    ensures multiset(SortBySizeDesc(ids, sizes)) == multiset(ids)
  {
    if |ids| > 0 {
      var init := ids[..|ids| - 1];
      var last := ids[|ids| - 1];
      SortBySizeDescSorted(init, sizes);
      InsertBySizeSorted(SortBySizeDesc(init, sizes), last, sizes);
      InsertBySizeMultiset(SortBySizeDesc(init, sizes), last, sizes);
      assert ids == init + [last];
    }
  }

  /** The sort is stable: for every size, the IDs of that size appear in input order. */
  lemma {:induction false} SortBySizeDescStable(ids: seq<string>, sizes: map<string, nat>, v: nat)
    ensures WithSize(SortBySizeDesc(ids, sizes), sizes, v) == WithSize(ids, sizes, v)
  {
    if |ids| > 0 {
      var init := ids[..|ids| - 1];
      var last := ids[|ids| - 1];
      SortBySizeDescStable(init, sizes, v);
      SortBySizeDescSorted(init, sizes);
      InsertBySizeStable(SortBySizeDesc(init, sizes), last, sizes, v);
      WithSizeAppend(init, [last], sizes, v);
      assert ids == init + [last];
    }
  }

  /** `min_by_key` over the loads: the first index of a smallest load. */
  function FirstMinIndex(loads: seq<nat>): (idx: nat)
    requires |loads| > 0
    ensures idx < |loads|
  {
    if |loads| == 1 then 0
    else
      var k := FirstMinIndex(loads[..|loads| - 1]);
      if loads[|loads| - 1] < loads[k] then |loads| - 1 else k
  }

  /** The chosen load is a least one, and every index before it holds a strictly larger load. */
  lemma {:induction false} FirstMinIndexIsFirstLeast(loads: seq<nat>)
    requires |loads| > 0
    ensures forall j :: 0 <= j < |loads| ==> loads[FirstMinIndex(loads)] <= loads[j]
    ensures forall j :: 0 <= j < FirstMinIndex(loads) ==> loads[FirstMinIndex(loads)] < loads[j]
  {
    if |loads| > 1 {
      var init := loads[..|loads| - 1];
      FirstMinIndexIsFirstLeast(init);
      assert forall j :: 0 <= j < |init| ==> init[j] == loads[j];
    }
  }

  /** Total size of a sequence of IDs. */
  function TotalSize(s: seq<string>, sizes: map<string, nat>): nat
  {
    if |s| == 0 then 0 else TotalSize(s[..|s| - 1], sizes) + SizeOf(sizes, s[|s| - 1])
  }

  /** The largest size in a sequence of IDs (0 for none). */
  function MaxSize(s: seq<string>, sizes: map<string, nat>): nat
  {
    if |s| == 0 then 0
    else
      var m := MaxSize(s[..|s| - 1], sizes);
      if SizeOf(sizes, s[|s| - 1]) > m then SizeOf(sizes, s[|s| - 1]) else m
  }

  function Sum(l: seq<nat>): nat
  {
    if |l| == 0 then 0 else l[0] + Sum(l[1..])
  }

  datatype Assignment = Assignment(batches: seq<seq<string>>, loads: seq<nat>)

  /**
   * The greedy assignment of the IDs in `order` over `n` instances:
   * each ID goes to the first instance with the least load so far, and
   * that load grows by the ID's size.
   */
  function Greedy(order: seq<string>, sizes: map<string, nat>, n: nat): (a: Assignment)
    requires n > 0
    ensures |a.batches| == n && |a.loads| == n
  {
    if |order| == 0 then Assignment(seq(n, _ => []), seq(n, _ => 0))
    else
      var prev := Greedy(order[..|order| - 1], sizes, n);
      var k := FirstMinIndex(prev.loads);
      var id := order[|order| - 1];
      Assignment(prev.batches[k := prev.batches[k] + [id]], prev.loads[k := prev.loads[k] + SizeOf(sizes, id)])
  }

  /** Before any ID: empty batches, no load. */
  lemma GreedyEmpty(order: seq<string>, sizes: map<string, nat>, n: nat)
    requires n > 0 && |order| == 0
    ensures Flatten(Greedy(order, sizes, n).batches) == []
    ensures Sum(Greedy(order, sizes, n).loads) == 0
  {
    var a := Greedy(order, sizes, n);
    assert forall i :: 0 <= i < |a.loads| ==> a.loads[i] == 0;
    SumZeros(a.loads);
    FlattenEmpties(a.batches);
  }

  /** One more ID: it joins the first least-loaded batch, whose load grows by its size. */
  lemma GreedyLast(order: seq<string>, sizes: map<string, nat>, n: nat)
    requires n > 0 && |order| > 0
    ensures var prev := Greedy(order[..|order| - 1], sizes, n);
            var k := FirstMinIndex(prev.loads);
            var id := order[|order| - 1];
            Greedy(order, sizes, n)
            == Assignment(prev.batches[k := prev.batches[k] + [id]], prev.loads[k := prev.loads[k] + SizeOf(sizes, id)])
  {
  }

  lemma {:induction false} SumZeros(l: seq<nat>)
    requires forall i :: 0 <= i < |l| ==> l[i] == 0
    ensures Sum(l) == 0
  {
    if |l| > 0 {
      SumZeros(l[1..]);
    }
  }

  lemma {:induction false} SumAdd(l: seq<nat>, k: nat, d: nat)
    requires k < |l|
    ensures Sum(l[k := l[k] + d]) == Sum(l) + d
  {
    if k == 0 {
      assert l[k := l[k] + d][1..] == l[1..];
    } else {
      assert l[k := l[k] + d][1..] == l[1..][k - 1 := l[k] + d];
      SumAdd(l[1..], k - 1, d);
    }
  }

  /** `|l|` copies of a lower bound of `l` sum to at most `Sum(l)`. */
  lemma {:induction false} SumAtLeast(l: seq<nat>, m: nat)
    requires forall j :: 0 <= j < |l| ==> m <= l[j]
    ensures |l| * m <= Sum(l)
  {
    if |l| > 0 {
      SumAtLeast(l[1..], m);
      assert |l| * m == m + (|l| - 1) * m;
    }
  }

  /** Every load is the total size of its batch. */
  lemma {:induction false} GreedyLoads(order: seq<string>, sizes: map<string, nat>, n: nat)
    requires n > 0
    ensures forall b :: 0 <= b < n ==>
              Greedy(order, sizes, n).loads[b] == TotalSize(Greedy(order, sizes, n).batches[b], sizes)
  {
    if |order| > 0 {
      var init := order[..|order| - 1];
      var id := order[|order| - 1];
      var prev := Greedy(init, sizes, n);
      var k := FirstMinIndex(prev.loads);
      GreedyLoads(init, sizes, n);
      var a := Greedy(order, sizes, n);
      forall b | 0 <= b < n
        ensures a.loads[b] == TotalSize(a.batches[b], sizes)
      {
        var x := prev.batches[b];
        assert prev.loads[b] == TotalSize(x, sizes);
        if b == k {
          assert a.batches[b] == x + [id] && a.loads[b] == prev.loads[b] + SizeOf(sizes, id);
          assert (x + [id])[..|x|] == x;
          assert TotalSize(x + [id], sizes) == TotalSize(x, sizes) + SizeOf(sizes, id);
        } else {
          assert a.batches[b] == x && a.loads[b] == prev.loads[b];
        }
      }
    }
  }

  /** The batches together hold exactly the IDs assigned. */
  lemma {:induction false} GreedyPartition(order: seq<string>, sizes: map<string, nat>, n: nat)
    requires n > 0
    ensures multiset(Flatten(Greedy(order, sizes, n).batches)) == multiset(order)
  {
    if |order| == 0 {
      GreedyEmpty(order, sizes, n);
    } else {
      var init := order[..|order| - 1];
      var id := order[|order| - 1];
      GreedyPartition(init, sizes, n);
      GreedyPartitionStep(order, sizes, n);
      MultisetLast(order);
      MultisetStep(multiset(Flatten(Greedy(order, sizes, n).batches)), multiset(Flatten(Greedy(init, sizes, n).batches)),
                   multiset(init), multiset(order), id);
    }
  }

  /** The last ID is added once to the batches. */
  lemma GreedyPartitionStep(order: seq<string>, sizes: map<string, nat>, n: nat)
    requires n > 0 && |order| > 0
    ensures multiset(Flatten(Greedy(order, sizes, n).batches))
            == multiset(Flatten(Greedy(order[..|order| - 1], sizes, n).batches)) + multiset{order[|order| - 1]}
  {
    var prev := Greedy(order[..|order| - 1], sizes, n);
    GreedyLast(order, sizes, n);
    FlattenAppend(prev.batches, FirstMinIndex(prev.loads), order[|order| - 1]);
  }

  /** The loads add up to the total size assigned. */
  lemma {:induction false} GreedySum(order: seq<string>, sizes: map<string, nat>, n: nat)
    requires n > 0
    ensures Sum(Greedy(order, sizes, n).loads) == TotalSize(order, sizes)
  {
    if |order| == 0 {
      GreedyEmpty(order, sizes, n);
    } else {
      GreedySum(order[..|order| - 1], sizes, n);
      GreedySumStep(order, sizes, n);
      TotalSizeLast(order, sizes);
    }
  }

  /** The last ID adds its size to the sum of the loads. */
  lemma GreedySumStep(order: seq<string>, sizes: map<string, nat>, n: nat)
    requires n > 0 && |order| > 0
    ensures Sum(Greedy(order, sizes, n).loads)
            == Sum(Greedy(order[..|order| - 1], sizes, n).loads) + SizeOf(sizes, order[|order| - 1])
  {
    var prev := Greedy(order[..|order| - 1], sizes, n);
    GreedyLast(order, sizes, n);
    SumUpdate(Greedy(order, sizes, n).loads, prev.loads, FirstMinIndex(prev.loads), SizeOf(sizes, order[|order| - 1]));
  }

  lemma TotalSizeLast(s: seq<string>, sizes: map<string, nat>)
    requires |s| > 0
    ensures TotalSize(s, sizes) == TotalSize(s[..|s| - 1], sizes) + SizeOf(sizes, s[|s| - 1])
  {
  }

  lemma SumUpdate(loads: seq<nat>, before: seq<nat>, k: nat, d: nat)
    requires k < |before| && loads == before[k := before[k] + d]
    ensures Sum(loads) == Sum(before) + d
  {
    SumAdd(before, k, d);
  }

  /**
   * No load exceeds the average by more than the largest size:
   * `n * load <= total + n * largest`, that is
   * `load <= total / n + largest`.
   */
  lemma {:induction false} GreedyBound(order: seq<string>, sizes: map<string, nat>, n: nat)
    requires n > 0
    ensures forall b :: 0 <= b < n ==>
              n * Greedy(order, sizes, n).loads[b] <= TotalSize(order, sizes) + n * MaxSize(order, sizes)
  {
    var a := Greedy(order, sizes, n);
    if |order| == 0 {
    } else {
      var init := order[..|order| - 1];
      var prev := Greedy(init, sizes, n);
      var k := FirstMinIndex(prev.loads);
      var s := SizeOf(sizes, order[|order| - 1]);
      GreedyBound(init, sizes, n);
      LeastLoadBound(init, sizes, n);
      GreedyLast(order, sizes, n);
      TotalSizeLast(order, sizes);
      assert s <= MaxSize(order, sizes) && MaxSize(init, sizes) <= MaxSize(order, sizes);
      BoundStep(prev.loads, a.loads, k, n, s, TotalSize(init, sizes), MaxSize(init, sizes), MaxSize(order, sizes));
    }
  }

  /** `n` times the least load is at most the total size. */
  lemma LeastLoadBound(order: seq<string>, sizes: map<string, nat>, n: nat)
    requires n > 0
    ensures var loads := Greedy(order, sizes, n).loads;
            n * loads[FirstMinIndex(loads)] <= TotalSize(order, sizes)
  {
    var loads := Greedy(order, sizes, n).loads;
    GreedySum(order, sizes, n);
    FirstMinIndexIsFirstLeast(loads);
    SumAtLeast(loads, loads[FirstMinIndex(loads)]);
  }

  /** Adding `s` to the least load keeps every load within the grown bound. */
  lemma BoundStep(before: seq<nat>, after: seq<nat>, k: nat, n: nat, s: nat, total: nat, maxBefore: nat, big: nat)
    requires n > 0 && |before| == n && k < n && after == before[k := before[k] + s]
    requires n * before[k] <= total && s <= big && maxBefore <= big
    requires forall b :: 0 <= b < n ==> n * before[b] <= total + n * maxBefore
    ensures forall b :: 0 <= b < n ==> n * after[b] <= total + s + n * big
  {
    forall b | 0 <= b < n
      ensures n * after[b] <= total + s + n * big
    {
      if b == k {
        BoundGrown(n, before[k], s, total, big);
      } else {
        BoundKept(n, before[b], s, total, maxBefore, big);
      }
    }
  }

  /** The least load plus the new size stays within the bound. */
  lemma BoundGrown(n: nat, least: nat, s: nat, totalBefore: nat, big: nat)
    requires n > 0 && n * least <= totalBefore && s <= big
    ensures n * (least + s) <= totalBefore + s + n * big
  {
    MulMono(s, big, n);
  }

  /** A load that does not grow stays within the (grown) bound. */
  lemma BoundKept(n: nat, load: nat, s: nat, totalBefore: nat, maxBefore: nat, big: nat)
    requires n > 0 && n * load <= totalBefore + n * maxBefore && maxBefore <= big
    ensures n * load <= totalBefore + s + n * big
  {
    MulMono(maxBefore, big, n);
  }

  lemma GreedyStep(prefix: seq<string>, id: string, sizes: map<string, nat>, n: nat,
                   batches: seq<seq<string>>, loads: seq<nat>, k: nat)
    requires n > 0
    requires Greedy(prefix, sizes, n) == Assignment(batches, loads)
    requires k == FirstMinIndex(loads)
    ensures k < |batches| && k < |loads|
    ensures Greedy(prefix + [id], sizes, n)
            == Assignment(batches[k := batches[k] + [id]], loads[k := loads[k] + SizeOf(sizes, id)])
  {
    var longer := prefix + [id];
    assert longer[..|longer| - 1] == prefix;
  }

  /**
   * `balance_mods_by_size`: sort the IDs largest first, then assign
   * each to the first least-loaded instance. The result is the greedy
   * assignment of the sorted IDs.
   */
  method BalanceBySize(ids: seq<string>, sizes: map<string, nat>, n: nat) returns (batches: seq<seq<string>>)
    requires n > 0
    ensures batches == Greedy(SortBySizeDesc(ids, sizes), sizes, n).batches
  {
    var order := SortBySizeDesc(ids, sizes);
    var loads: seq<nat> := seq(n, _ => 0);
    batches := seq(n, _ => []);
    assert Greedy(order[..0], sizes, n) == Assignment(batches, loads) by {
      assert |order[..0]| == 0;
    }
    for i := 0 to |order|
      invariant Greedy(order[..i], sizes, n) == Assignment(batches, loads)
    {
      var k := FirstMinIndex(loads);
      GreedyStep(order[..i], order[i], sizes, n, batches, loads, k);
      assert order[..i + 1] == order[..i] + [order[i]];
      batches := batches[k := batches[k] + [order[i]]];
      loads := loads[k := loads[k] + SizeOf(sizes, order[i])];
    }
    assert order[..|order|] == order;
  }

  /** Size balancing partitions the request: every ID lands in exactly one batch, once per request. */
  lemma BalanceBySizePartition(ids: seq<string>, sizes: map<string, nat>, n: nat)
    requires n > 0
    ensures multiset(Flatten(Greedy(SortBySizeDesc(ids, sizes), sizes, n).batches)) == multiset(ids)
  {
    SortBySizeDescSorted(ids, sizes);
    GreedyPartition(SortBySizeDesc(ids, sizes), sizes, n);
  }

  /** The batches `download_mods_with_sizes` plans for a non-empty request. */
  function PlannedBatches(ids: seq<string>, sizes: Option<map<string, nat>>): (batches: seq<seq<string>>)
    requires |ids| > 0
    ensures |batches| == NumInstances(|ids|)
  {
    var n := NumInstances(|ids|);
    if sizes.Some? then Greedy(SortBySizeDesc(ids, sizes.value), sizes.value, n).batches
    else seq(n, b requires 0 <= b < n => Column(ids, n, b))
  }

  /** Whichever way it is planned, the split loses and invents no ID. */
  lemma PlannedBatchesPartition(ids: seq<string>, sizes: Option<map<string, nat>>)
    requires |ids| > 0
    ensures multiset(Flatten(PlannedBatches(ids, sizes))) == multiset(ids)
  {
    var n := NumInstances(|ids|);
    if sizes.Some? {
      BalanceBySizePartition(ids, sizes.value, n);
    } else {
      RoundRobinPartition(ids, n);
    }
  }

  // ---------------------------------------------------------------
  // The script each instance runs.

  function ForceInstallDirLine(dir: string): string
  {
    "force_install_dir \"" + dir + "\""
  }

  function WorkshopItemLine(id: string): string
  {
    "workshop_download_item " + RimWorldAppId + " " + id
  }

  /** `run_batch_<idx>.txt`, the script file of batch `idx`. */
  function BatchScriptName(idx: nat): string
  {
    "run_batch_" + NatToString(idx) + ".txt"
  }

  /**
   * The SteamCMD script: install directory, anonymous login, one
   * download command per ID in order, then `quit`; the lines are joined
   * by newlines and the text ends with one.
   */
  method BuildScript(installDir: string, ids: seq<string>) returns (lines: seq<string>, content: string)
    ensures |lines| == |ids| + 3
    ensures lines[0] == ForceInstallDirLine(installDir) && lines[1] == "login anonymous"
    ensures forall k :: 0 <= k < |ids| ==> lines[k + 2] == WorkshopItemLine(ids[k])
    ensures lines[|ids| + 2] == "quit"
    ensures content == JoinWith(lines, "\n") + "\n"
  {
    lines := [ForceInstallDirLine(installDir), "login anonymous"];
    for k := 0 to |ids|
      invariant |lines| == k + 2
      invariant lines[0] == ForceInstallDirLine(installDir) && lines[1] == "login anonymous"
      invariant forall j :: 0 <= j < k ==> lines[j + 2] == WorkshopItemLine(ids[j])
    {
      lines := lines + [WorkshopItemLine(ids[k])];
    }
    lines := lines + ["quit"];
    content := JoinWith(lines, "\n") + "\n";
  }

  lemma {:induction false} JoinTrailingEmpty(parts: seq<string>, sep: string)
    requires |parts| > 0
    ensures JoinWith(parts + [""], sep) == JoinWith(parts, sep) + sep
  {
    if |parts| == 1 {
      assert (parts + [""])[1..] == [""];
    } else {
      assert (parts + [""])[1..] == parts[1..] + [""];
      JoinTrailingEmpty(parts[1..], sep);
    }
  }

  /**
   * Reading a script back line by line gives its lines and a final
   * empty piece, as long as neither the directory nor any ID holds a
   * newline.
   */
  lemma ScriptLinesRoundTrip(installDir: string, ids: seq<string>, lines: seq<string>)
    requires '\n' !in installDir && forall k :: 0 <= k < |ids| ==> '\n' !in ids[k]
    requires |lines| == |ids| + 3
    requires lines[0] == ForceInstallDirLine(installDir) && lines[1] == "login anonymous"
    requires forall k :: 0 <= k < |ids| ==> lines[k + 2] == WorkshopItemLine(ids[k])
    requires lines[|ids| + 2] == "quit"
    ensures SplitOn(JoinWith(lines, "\n") + "\n", '\n') == lines + [""]
  {
    JoinTrailingEmpty(lines, "\n");
    ScriptLinesNoNewline(installDir, ids, lines);
    SplitJoin(lines + [""], '\n');
  }

  lemma ScriptLinesNoNewline(installDir: string, ids: seq<string>, lines: seq<string>)
    requires '\n' !in installDir && forall k :: 0 <= k < |ids| ==> '\n' !in ids[k]
    requires |lines| == |ids| + 3
    requires lines[0] == ForceInstallDirLine(installDir) && lines[1] == "login anonymous"
    requires forall k :: 0 <= k < |ids| ==> lines[k + 2] == WorkshopItemLine(ids[k])
    requires lines[|ids| + 2] == "quit"
    ensures forall i :: 0 <= i < |lines + [""]| ==> '\n' !in (lines + [""])[i]
  {
    forall i | 0 <= i < |lines|
      ensures '\n' !in lines[i]
    {
      if i == 0 {
        assert '\n' !in "force_install_dir \"";
      } else if 2 <= i < |ids| + 2 {
        assert lines[i] == WorkshopItemLine(ids[i - 2]);
        assert '\n' !in "workshop_download_item 294100 ";
      }
    }
  }

  // ---------------------------------------------------------------
  // Noticing that a mod folder has arrived.

  /** What a look at a download folder finds. */
  datatype FolderState = Missing | NotDir | DirWith(entries: nat)

  /** The folder exists, is a directory and holds at least one entry. */
  predicate Ready(s: FolderState)
  {
    s.DirWith? && s.entries > 0
  }

  /** The time of the `k`-th look at the folder. */
  function PollTime(k: nat, interval: nat): nat
  {
    k * interval
  }

  /** The index of the last look: the first one past the timeout. */
  function LastPoll(timeout: nat, interval: nat): nat
    requires interval > 0
  {
    timeout / interval + 1
  }

  /** A look within the timeout is followed by another one, at most the `LastPoll`-th. */
  lemma PollWithinTimeout(k: nat, timeout: nat, interval: nat)
    requires interval > 0 && PollTime(k, interval) <= timeout
    ensures k + 1 <= LastPoll(timeout, interval)
  {
    var q := timeout / interval;
    assert timeout == q * interval + timeout % interval;
    MulMono(q + 1, k, interval);
  }

  /** The first look past the timeout is look number `LastPoll`. */
  lemma FirstPollPastTimeout(k: nat, timeout: nat, interval: nat)
    requires interval > 0 && k <= LastPoll(timeout, interval)
    requires PollTime(k, interval) > timeout
    ensures k == LastPoll(timeout, interval)
  {
    var q := timeout / interval;
    assert timeout == q * interval + timeout % interval;
    MulMono(k, q, interval);
  }

  /** The result for a folder that arrived: the ID, the path and its last component. */
  function DownloadedResult(path: Path, modId: string): (m: DownloadedMod)
    ensures m.modId == modId && m.modPath == path
    ensures m.folder.Some? <==> |path| > 0
    ensures m.folder.Some? ==> path == path[..|path| - 1] + [m.folder.value]
  {
    DownloadedMod(modId, path, FileName(path))
  }

  /** Whether the detector with these limits ever sees the folder ready. */
  predicate Arrives(probe: nat -> FolderState, timeout: nat, interval: nat)
    requires interval > 0
  {
    exists k :: 0 <= k <= LastPoll(timeout, interval) && Ready(probe(PollTime(k, interval)))
  }

  /**
   * The waiting loop: look at the folder, stop with the mod once it is
   * ready, give up once the elapsed time is past `timeout`, otherwise
   * wait `interval` and look again. Returns the mod exactly when one of
   * the looks up to the first one past the timeout finds the folder
   * ready, and then it is the first such look that returns.
   */
  method WaitForModDownload(path: Path, modId: string, probe: nat -> FolderState, timeout: nat, interval: nat)
    returns (r: Option<DownloadedMod>, polls: nat)
    requires interval > 0
    ensures polls <= LastPoll(timeout, interval)
    ensures forall k :: 0 <= k < polls ==> !Ready(probe(PollTime(k, interval)))
    ensures r.Some? ==> Ready(probe(PollTime(polls, interval))) && r.value == DownloadedResult(path, modId)
    ensures r.None? ==> polls == LastPoll(timeout, interval) && !Ready(probe(PollTime(polls, interval)))
    ensures r.Some? <==> Arrives(probe, timeout, interval)
  {
    polls := 0;
    while true
      invariant polls <= LastPoll(timeout, interval)
      invariant forall k :: 0 <= k < polls ==> !Ready(probe(PollTime(k, interval)))
      decreases LastPoll(timeout, interval) - polls
    {
      if Ready(probe(PollTime(polls, interval))) {
        r := Some(DownloadedResult(path, modId));
        return;
      }
      if PollTime(polls, interval) > timeout {
        FirstPollPastTimeout(polls, timeout, interval);
        r := None;
        return;
      }
      PollWithinTimeout(polls, timeout, interval);
      polls := polls + 1;
    }
  }

  // ---------------------------------------------------------------
  // Running batches and combining their results.

  /** The mods whose folder below `downloadDir` the detector sees arrive, in request order. */
  function ArrivedMods(downloadDir: Path, ids: seq<string>, probes: string -> nat -> FolderState,
                       timeout: nat, interval: nat): seq<DownloadedMod>
    requires interval > 0
  {
    if |ids| == 0 then []
    else
      var id := ids[|ids| - 1];
      ArrivedMods(downloadDir, ids[..|ids| - 1], probes, timeout, interval)
      + (if Arrives(probes(id), timeout, interval) then [DownloadedResult(downloadDir + [id], id)] else [])
  }

  /**
   * Every mod reported was requested and did arrive, sits at
   * `downloadDir/<id>` and has its ID as folder name; each request
   * yields at most one mod.
   */
  lemma {:induction false} ArrivedModsShape(downloadDir: Path, ids: seq<string>, probes: string -> nat -> FolderState,
                                            timeout: nat, interval: nat)
    requires interval > 0
    ensures |ArrivedMods(downloadDir, ids, probes, timeout, interval)| <= |ids|
    ensures forall m :: m in ArrivedMods(downloadDir, ids, probes, timeout, interval) ==>
              m.modId in ids && Arrives(probes(m.modId), timeout, interval)
              && m.modPath == downloadDir + [m.modId] && m.folder == Some(m.modId)
  {
    if |ids| > 0 {
      ArrivedModsShape(downloadDir, ids[..|ids| - 1], probes, timeout, interval);
      assert forall x :: x in ids[..|ids| - 1] ==> x in ids;
    }
  }

  /** Waits for each requested mod in turn and keeps the ones that arrived. */
  method CollectArrived(downloadDir: Path, ids: seq<string>, probes: string -> nat -> FolderState,
                        timeout: nat, interval: nat) returns (mods: seq<DownloadedMod>)
    requires interval > 0
    ensures mods == ArrivedMods(downloadDir, ids, probes, timeout, interval)
  {
    mods := [];
    for i := 0 to |ids|
      invariant mods == ArrivedMods(downloadDir, ids[..i], probes, timeout, interval)
    {
      assert ids[..i + 1][..i] == ids[..i];
      var found, _ := WaitForModDownload(downloadDir + [ids[i]], ids[i], probes(ids[i]), timeout, interval);
      if found.Some? {
        mods := mods + [found.value];
      }
    }
    assert ids[..|ids|] == ids;
  }

  /** The mods of the batches that succeeded, in batch order. */
  function SucceededMods(results: seq<Result<seq<DownloadedMod>, string>>): seq<DownloadedMod>
  {
    if |results| == 0 then []
    else
      var last := results[|results| - 1];
      SucceededMods(results[..|results| - 1]) + (if last.Ok? then last.value else [])
  }

  function CountOk<T, E>(results: seq<Result<T, E>>): (c: nat)
    ensures c <= |results|
  {
    if |results| == 0 then 0
    else CountOk(results[..|results| - 1]) + (if results[|results| - 1].Ok? then 1 else 0)
  }

  /** Combining the batch results: the mods of every successful batch, with success and failure counts. */
  method CollectBatchResults(results: seq<Result<seq<DownloadedMod>, string>>)
    returns (all: seq<DownloadedMod>, successes: nat, failures: nat)
    ensures all == SucceededMods(results)
    ensures successes == CountOk(results) && successes + failures == |results|
  {
    all := [];
    successes := 0;
    failures := 0;
    for i := 0 to |results|
      invariant all == SucceededMods(results[..i])
      invariant successes == CountOk(results[..i]) && successes + failures == i
    {
      assert results[..i + 1][..i] == results[..i];
      match results[i]
      case Ok(mods) =>
        successes := successes + 1;
        all := all + mods;
      case Err(_) =>
        failures := failures + 1;
    }
    assert results[..|results|] == results;
  }

  lemma {:induction false} SucceededModsAppend(a: seq<Result<seq<DownloadedMod>, string>>, b: seq<Result<seq<DownloadedMod>, string>>)
    ensures SucceededMods(a + b) == SucceededMods(a) + SucceededMods(b)
    decreases |b|
  {
    if |b| == 0 {
      assert a + b == a;
    } else {
      assert (a + b)[..|a + b| - 1] == a + b[..|b| - 1];
      SucceededModsAppend(a, b[..|b| - 1]);
    }
  }

  /** A failed batch contributes nothing and does not stop the others. */
  lemma FailedBatchContributesNothing(a: seq<Result<seq<DownloadedMod>, string>>, e: string,
                                      b: seq<Result<seq<DownloadedMod>, string>>)
    ensures SucceededMods(a + [Err(e)] + b) == SucceededMods(a + b)
  {
    SucceededModsAppend(a + [Err(e)], b);
    SucceededModsAppend(a, b);
    assert (a + [Err(e)])[..|a|] == a;
  }

  /** The results of running every non-empty batch, each with its index in the plan. */
  function Launch(batches: seq<seq<string>>, run: (nat, seq<string>) -> Result<seq<DownloadedMod>, string>)
    : seq<Result<seq<DownloadedMod>, string>>
  {
    if |batches| == 0 then []
    else
      var k := |batches| - 1;
      Launch(batches[..k], run) + (if |batches[k]| == 0 then [] else [run(k, batches[k])])
  }

  /** Only non-empty batches run, and each at most once. */
  lemma {:induction false} LaunchRunsNonEmpty(batches: seq<seq<string>>, run: (nat, seq<string>) -> Result<seq<DownloadedMod>, string>)
    ensures |Launch(batches, run)| <= |batches|
    ensures forall x :: x in Launch(batches, run) ==>
              exists k :: 0 <= k < |batches| && |batches[k]| > 0 && x == run(k, batches[k])
  {
    if |batches| > 0 {
      var k := |batches| - 1;
      LaunchRunsNonEmpty(batches[..k], run);
      forall x | x in Launch(batches, run)
        ensures exists j :: 0 <= j < |batches| && |batches[j]| > 0 && x == run(j, batches[j])
      {
        if x in Launch(batches[..k], run) {
          var j :| 0 <= j < k && |batches[..k][j]| > 0 && x == run(j, batches[..k][j]);
          assert batches[..k][j] == batches[j];
        }
      }
    }
  }

  /**
   * `download_mods_with_sizes`: nothing to do for an empty request;
   * otherwise fail if preparation (download directory, SteamCMD
   * executable) failed, else plan the batches, run every non-empty one
   * and return the mods of those that succeeded. A failed batch only
   * loses its own mods.
   */
  method DownloadModsWithSizes(ids: seq<string>, sizes: Option<map<string, nat>>, prepError: Option<string>,
                               run: (nat, seq<string>) -> Result<seq<DownloadedMod>, string>)
    returns (r: Result<seq<DownloadedMod>, string>)
    ensures |ids| == 0 ==> r == Ok([])
    ensures |ids| > 0 && prepError.Some? ==> r == Err(prepError.value)
    ensures |ids| > 0 && prepError.None? ==> r == Ok(SucceededMods(Launch(PlannedBatches(ids, sizes), run)))
  {
    if |ids| == 0 {
      return Ok([]);
    }
    if prepError.Some? {
      return Err(prepError.value);
    }
    var n := NumInstances(|ids|);
    var batches;
    if sizes.Some? {
      batches := BalanceBySize(ids, sizes.value, n);
    } else {
      batches := BalanceRoundRobin(ids, n);
    }
    assert batches == PlannedBatches(ids, sizes);
    var results := LaunchBatches(batches, run);
    var all, _, _ := CollectBatchResults(results);
    return Ok(all);
  }

  /** Runs every non-empty batch in plan order, passing each its index, and keeps the results. */
  method LaunchBatches(batches: seq<seq<string>>, run: (nat, seq<string>) -> Result<seq<DownloadedMod>, string>)
    returns (results: seq<Result<seq<DownloadedMod>, string>>)
    ensures results == Launch(batches, run)
  {
    results := [];
    for idx := 0 to |batches|
      invariant results == Launch(batches[..idx], run)
    {
      assert batches[..idx + 1][..idx] == batches[..idx];
      if |batches[idx]| > 0 {
        results := results + [run(idx, batches[idx])];
      }
    }
    assert batches[..|batches|] == batches;
  }

  /**
   * `download_mods_batch`: write the batch script, start SteamCMD, then
   * keep the mods whose folder the detector saw arrive. `spawnError`
   * stands for a failure to write the script or to start or wait for
   * SteamCMD; `probes(id)` is what the folder of `id` looks like over
   * time.
   */
  method DownloadBatch(steamcmdAbs: string, downloadAbs: Path, ids: seq<string>, batchIdx: nat,
                       spawnError: Option<string>, probes: string -> nat -> FolderState)
    returns (scriptName: string, script: string, r: Result<seq<DownloadedMod>, string>)
    ensures scriptName == BatchScriptName(batchIdx)
    ensures exists lines :: |lines| == |ids| + 3 && script == JoinWith(lines, "\n") + "\n"
              && lines[0] == ForceInstallDirLine(steamcmdAbs) && lines[|ids| + 2] == "quit"
              && forall k :: 0 <= k < |ids| ==> lines[k + 2] == WorkshopItemLine(ids[k])
    ensures spawnError.Some? ==> r == Err(spawnError.value)
    ensures spawnError.None? ==> r == Ok(ArrivedMods(downloadAbs, ids, probes, DetectTimeout, DetectInterval))
  {
    scriptName := BatchScriptName(batchIdx);
    var lines;
    lines, script := BuildScript(steamcmdAbs, ids);
    if spawnError.Some? {
      return scriptName, script, Err(spawnError.value);
    }
    var mods := CollectArrived(downloadAbs, ids, probes, DetectTimeout, DetectInterval);
    r := Ok(mods);
  }

  // ---------------------------------------------------------------
  // The downloader object and its registry of downloads in flight.

  class Downloader {
    var steamcmdPath: Path
    var downloadPath: Path
    var activeDownloads: set<string>

    /** `Downloader::new`: the SteamCMD directory defaults to `steamcmd`. */
    constructor (steamcmd: Option<Path>)
      ensures steamcmdPath == (if steamcmd.Some? then steamcmd.value else ["steamcmd"])
      ensures downloadPath == DownloadPathOf(steamcmdPath)
      ensures activeDownloads == {}
    {
      steamcmdPath := if steamcmd.Some? then steamcmd.value else ["steamcmd"];
      downloadPath := DownloadPathOf(if steamcmd.Some? then steamcmd.value else ["steamcmd"]);
      activeDownloads := {};
    }

    predicate IsDownloading(id: string)
      reads this
    {
      id in activeDownloads
    }

    /** Adds `id` to the IDs in flight. */
    method MarkDownloading(id: string)
      modifies this
      ensures activeDownloads == old(activeDownloads) + {id}
      ensures steamcmdPath == old(steamcmdPath) && downloadPath == old(downloadPath)
    {
      activeDownloads := activeDownloads + {id};
    }

    /** Removes `id` from the IDs in flight. */
    method MarkDownloaded(id: string)
      modifies this
      ensures activeDownloads == old(activeDownloads) - {id}
      ensures steamcmdPath == old(steamcmdPath) && downloadPath == old(downloadPath)
    {
      activeDownloads := activeDownloads - {id};
    }
  }
}
