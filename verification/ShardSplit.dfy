/** The CI test sharder: every test file into one of `total` shards, heaviest file first. */
module ShardSplit {
  import opened Wrappers
  import opened ListScheduling

  /** A collected file: its path and the number of test methods found in it. */
  datatype TestFile = TestFile(path: string, methods: nat)

  datatype SplitError = TotalBelowOne

  /** A file without test methods still costs an import. */
  function Weight(f: TestFile): nat {
    if f.methods > 1 then f.methods else 1
  }

  function Weights(files: seq<TestFile>): (w: seq<nat>)
    ensures |w| == |files| && forall k :: 0 <= k < |w| ==> w[k] == Weight(files[k])
  {
    seq(|files|, k requires 0 <= k < |files| => Weight(files[k]))
  }

  function WeightOf(shard: seq<TestFile>): nat {
    if |shard| == 0 then 0 else WeightOf(shard[..|shard| - 1]) + Weight(shard[|shard| - 1])
  }

  // ---------------------------------------------------------------------------
  // The sort key (-weight, path)
  // ---------------------------------------------------------------------------

  predicate PathLess(a: string, b: string) {
    |b| > 0 && (|a| == 0 || a[0] < b[0] || (a[0] == b[0] && PathLess(a[1..], b[1..])))
  }

  predicate Before(f: TestFile, g: TestFile) {
    Weight(f) > Weight(g) || (Weight(f) == Weight(g) && PathLess(f.path, g.path))
  }

  lemma {:induction false} PathLessTotal(a: string, b: string)
    ensures a == b ==> !PathLess(a, b)
    ensures a != b ==> PathLess(a, b) != PathLess(b, a)
  {
    if |a| > 0 && |b| > 0 {
      PathLessTotal(a[1..], b[1..]);
      assert a == [a[0]] + a[1..] && b == [b[0]] + b[1..];
    }
  }

  lemma {:induction false} PathLessTransitive(a: string, b: string, c: string)
    requires PathLess(a, b) && PathLess(b, c)
    ensures PathLess(a, c)
  {
    if |a| > 0 && a[0] == b[0] == c[0] { PathLessTransitive(a[1..], b[1..], c[1..]); }
  }

  lemma BeforeTransitive(f: TestFile, g: TestFile, h: TestFile)
    requires Before(f, g) && Before(g, h)
    ensures Before(f, h)
  {
    if Weight(f) == Weight(h) { PathLessTransitive(f.path, g.path, h.path); }
  }

  lemma BeforeTotal(f: TestFile, g: TestFile)
    ensures !(Before(f, g) && Before(g, f))
    ensures f.path != g.path ==> Before(f, g) || Before(g, f)
  {
    PathLessTotal(f.path, g.path);
  }

  ghost predicate DistinctPaths(files: seq<TestFile>) {
    forall j, k :: 0 <= j < k < |files| ==> files[j].path != files[k].path
  }

  ghost predicate InOrder(files: seq<TestFile>) {
    forall j, k :: 0 <= j < k < |files| ==> Before(files[j], files[k])
  }

  function Insert(f: TestFile, files: seq<TestFile>): (r: seq<TestFile>)
    ensures multiset(r) == multiset(files) + multiset{f}
  {
    if |files| == 0 || Before(f, files[0]) then [f] + files
    else
      assert files == [files[0]] + files[1..];
      [files[0]] + Insert(f, files[1..])
  }

  /** The files in the order the loop takes them. */
  function Sorted(files: seq<TestFile>): (r: seq<TestFile>)
    ensures multiset(r) == multiset(files)
  {
    if |files| == 0 then []
    else
      assert files == [files[0]] + files[1..];
      Insert(files[0], Sorted(files[1..]))
  }

  lemma {:induction false} InsertInOrder(f: TestFile, files: seq<TestFile>)
    requires InOrder(files) && forall g :: g in files ==> g.path != f.path
    ensures InOrder(Insert(f, files))
  {
    if |files| > 0 {
      BeforeTotal(f, files[0]);
      if Before(f, files[0]) {
        forall g | g in files[1..] ensures Before(f, g) {
          BeforeTransitive(f, files[0], g);
        }
      } else {
        InsertInOrder(f, files[1..]);
        forall g | g in Insert(f, files[1..]) ensures Before(files[0], g) {
          assert g in multiset(Insert(f, files[1..]));
        }
      }
    }
  }

  lemma {:induction false} SortedInOrder(files: seq<TestFile>)
    requires DistinctPaths(files)
    ensures InOrder(Sorted(files))
  {
    if |files| > 0 {
      SortedInOrder(files[1..]);
      forall g | g in Sorted(files[1..]) ensures g.path != files[0].path {
        assert g in multiset(Sorted(files[1..]));
      }
      InsertInOrder(files[0], Sorted(files[1..]));
    }
  }

  lemma SortedKeepsFiles(files: seq<TestFile>, f: TestFile)
    ensures f in Sorted(files) <==> f in files
  {
    assert f in Sorted(files) <==> f in multiset(Sorted(files));
    assert f in files <==> f in multiset(files);
  }

  lemma {:induction false} OrderIsUnique(a: seq<TestFile>, b: seq<TestFile>)
    requires InOrder(a) && InOrder(b)
    requires forall f :: f in a <==> f in b
    ensures a == b
  {
    assert |a| > 0 ==> a[0] in a;
    assert |b| > 0 ==> b[0] in b;
    if |a| > 0 {
      assert b[0] in a && a[0] in b;
      BeforeTotal(a[0], b[0]);
      forall f ensures f in a[1..] <==> f in b[1..] {
        BeforeTotal(f, f);
        assert f in a[1..] <==> f in a && f != a[0];
        assert f in b[1..] <==> f in b && f != b[0];
      }
      OrderIsUnique(a[1..], b[1..]);
    }
  }

  // ---------------------------------------------------------------------------
  // The split
  // ---------------------------------------------------------------------------

  /** The files that `assign` sends to shard `i`, in the order they were placed. */
  function FilesOf(files: seq<TestFile>, assign: seq<nat>, i: nat): seq<TestFile>
    requires |assign| == |files|
  {
    if |files| == 0 then []
    else
      var n := |files| - 1;
      FilesOf(files[..n], assign[..n], i) + if assign[n] == i then [files[n]] else []
  }

  /** Where heaviest-first puts the files, which come heaviest first. */
  function Placement(files: seq<TestFile>, total: nat): (assign: seq<nat>)
    requires total > 0
    ensures |assign| == |files|
  {
    Greedy(Weights(files), total)
  }

  function ShardsOf(files: seq<TestFile>, total: nat): (shards: seq<seq<TestFile>>)
    requires total > 0
    ensures |shards| == total
  {
    seq(total, i requires 0 <= i < total => FilesOf(files, Placement(files, total), i))
  }

  function LoadsOf(files: seq<TestFile>, total: nat): (loads: seq<nat>)
    requires total > 0
    ensures |loads| == total
  {
    Loads(Weights(files), Placement(files, total), total)
  }

  function SplitOf(listing: seq<TestFile>, total: nat): (shards: seq<seq<TestFile>>)
    requires total > 0
    ensures |shards| == total
  {
    ShardsOf(Sorted(listing), total)
  }

  /** The shard that the next file joins once `files` are dealt out. */
  function NextShard(files: seq<TestFile>, total: nat): (i: nat)
    requires total > 0
    ensures i < total
  {
    Lightest(LoadsOf(files, total))
  }

  lemma FilesOfPush(files: seq<TestFile>, f: TestFile, assign: seq<nat>, to: nat, i: nat)
    requires |assign| == |files|
    ensures FilesOf(files + [f], assign + [to], i) == FilesOf(files, assign, i) + if to == i then [f] else []
  {
    assert (files + [f])[..|files|] == files && (assign + [to])[..|files|] == assign;
  }

  lemma LoadPush(w: seq<nat>, x: nat, assign: seq<nat>, to: nat, i: nat)
    requires |assign| == |w|
    ensures Load(w + [x], assign + [to], i) == Load(w, assign, i) + if to == i then x else 0
  {
    assert (w + [x])[..|w|] == w && (assign + [to])[..|w|] == assign;
  }

  lemma AssignNext(files: seq<TestFile>, f: TestFile, total: nat)
    requires total > 0
    ensures Placement(files + [f], total) == Placement(files, total) + [NextShard(files, total)]
  {
    assert Weights(files + [f])[..|files|] == Weights(files);
  }

  /** One more file: it joins the lightest shard and changes no other. */
  lemma PlaceNext(files: seq<TestFile>, f: TestFile, total: nat, i: nat)
    requires i < total
    ensures FilesOf(files + [f], Placement(files + [f], total), i)
         == FilesOf(files, Placement(files, total), i) + (if i == NextShard(files, total) then [f] else [])
    ensures Load(Weights(files + [f]), Placement(files + [f], total), i)
         == Load(Weights(files), Placement(files, total), i) + (if i == NextShard(files, total) then Weight(f) else 0)
  {
    AssignNext(files, f, total);
    FilesOfPush(files, f, Placement(files, total), NextShard(files, total), i);
    LoadPush(Weights(files), Weight(f), Placement(files, total), NextShard(files, total), i);
    assert Weights(files + [f]) == Weights(files) + [Weight(f)];
  }

  lemma DealNext(files: seq<TestFile>, f: TestFile, total: nat)
    requires total > 0
    ensures var next, shards, loads := NextShard(files, total), ShardsOf(files, total), LoadsOf(files, total);
            && ShardsOf(files + [f], total) == shards[next := shards[next] + [f]]
            && LoadsOf(files + [f], total) == loads[next := loads[next] + Weight(f)]
  {
    var next, shards, loads := NextShard(files, total), ShardsOf(files, total), LoadsOf(files, total);
    var shardsAfter, loadsAfter := ShardsOf(files + [f], total), LoadsOf(files + [f], total);
    forall i | 0 <= i < total
      ensures shardsAfter[i] == shards[next := shards[next] + [f]][i]
      ensures loadsAfter[i] == loads[next := loads[next] + Weight(f)][i]
    {
      PlaceNext(files, f, total, i);
    }
  }

  /** What the loop's two lists hold. */
  datatype Tally = Tally(shards: seq<seq<TestFile>>, loads: seq<nat>)

  function Place(t: Tally, f: TestFile): (after: Tally)
    requires |t.shards| == |t.loads| > 0
    ensures |after.shards| == |after.loads| == |t.loads|
  {
    var lightest := Lightest(t.loads);
    Tally(t.shards[lightest := t.shards[lightest] + [f]], t.loads[lightest := t.loads[lightest] + Weight(f)])
  }

  ghost function TallyOf(files: seq<TestFile>, total: nat): (t: Tally)
    requires total > 0
    ensures |t.shards| == |t.loads| == total
  {
    if files == [] then Tally(seq(total, _ => []), seq(total, _ => 0))
    else Place(TallyOf(files[..|files| - 1], total), files[|files| - 1])
  }

  /** Carrying the loads along agrees with weighing every shard afresh. */
  lemma {:induction false} TallyIsRight(files: seq<TestFile>, total: nat)
    requires total > 0
    ensures TallyOf(files, total) == Tally(ShardsOf(files, total), LoadsOf(files, total))
  {
    if files == [] {
      NothingDealt(files, total);
    } else {
      var front, f := files[..|files| - 1], files[|files| - 1];
      TallyIsRight(front, total);
      DealNext(front, f, total);
      assert front + [f] == files;
    }
  }

  lemma NothingDealt(files: seq<TestFile>, total: nat)
    requires files == [] && total > 0
    ensures ShardsOf(files, total) == seq(total, _ => []) && LoadsOf(files, total) == seq(total, _ => 0)
  {
  }

  lemma TallyNext(files: seq<TestFile>, k: nat, total: nat)
    requires total > 0 && k < |files|
    ensures TallyOf(files[..k + 1], total) == Place(TallyOf(files[..k], total), files[k])
  {
    assert files[..k + 1][..k] == files[..k];
  }

  method PlaceOn(shards: array<seq<TestFile>>, loads: array<nat>, f: TestFile)
    requires shards.Length == loads.Length > 0
    modifies shards, loads
    ensures Tally(shards[..], loads[..]) == Place(Tally(old(shards[..]), old(loads[..])), f)
  {
    var lightest := Lightest(loads[..]);
    shards[lightest] := shards[lightest] + [f];
    loads[lightest] := loads[lightest] + Weight(f);
  }

  /** The loop: each file, heaviest first, goes to the lightest shard, whose load then grows by it. */
  method Split(listing: seq<TestFile>, total: int) returns (result: Result<seq<seq<TestFile>>, SplitError>)
    ensures result == if total < 1 then Err(TotalBelowOne) else Ok(SplitOf(listing, total))
  {
    if total < 1 {
      return Err(TotalBelowOne);
    }
    var shards := new seq<TestFile>[total](_ => []);
    var loads := new nat[total](_ => 0);
    var files := Sorted(listing);
    for k := 0 to |files|
      invariant Tally(shards[..], loads[..]) == TallyOf(files[..k], total)
    {
      TallyNext(files, k, total);
      PlaceOn(shards, loads, files[k]);
    }
    assert files[..|files|] == files;
    TallyIsRight(files, total);
    return Ok(shards[..]);
  }

  lemma WeightOfPush(shard: seq<TestFile>, f: TestFile)
    ensures WeightOf(shard + [f]) == WeightOf(shard) + Weight(f)
  {
    assert (shard + [f])[..|shard|] == shard;
  }

  lemma {:induction false} ShardWeighsItsLoad(files: seq<TestFile>, assign: seq<nat>, i: nat)
    requires |assign| == |files|
    ensures WeightOf(FilesOf(files, assign, i)) == Load(Weights(files), assign, i)
  {
    if |files| > 0 {
      var n := |files| - 1;
      ShardWeighsItsLoad(files[..n], assign[..n], i);
      assert Weights(files)[..n] == Weights(files[..n]);
      WeightOfPush(FilesOf(files[..n], assign[..n], i), files[n]);
      assert FilesOf(files[..n], assign[..n], i) + [] == FilesOf(files[..n], assign[..n], i);
    }
  }

  lemma {:induction false} FileIsWhereAssigned(files: seq<TestFile>, assign: seq<nat>, f: TestFile, i: nat)
    requires |assign| == |files|
    ensures f in FilesOf(files, assign, i) <==> exists k :: 0 <= k < |files| && files[k] == f && assign[k] == i
  {
    if |files| > 0 {
      var n := |files| - 1;
      FileIsWhereAssigned(files[..n], assign[..n], f, i);
      if k :| 0 <= k < |files| && files[k] == f && assign[k] == i {
        if k < n { assert files[..n][k] == f && assign[..n][k] == i; }
      }
    }
  }

  lemma OnePosition(files: seq<TestFile>, j: nat, k: nat)
    requires InOrder(files) && j < |files| && k < |files| && files[j] == files[k]
    ensures j == k
  {
    BeforeTotal(files[j], files[j]);
  }

  /** The one shard a listed file is in. */
  lemma HomeOf(listing: seq<TestFile>, total: nat, f: TestFile) returns (home: nat)
    requires total > 0 && DistinctPaths(listing) && f in listing
    ensures home < total && forall i :: 0 <= i < total ==> (f in SplitOf(listing, total)[i] <==> i == home)
  {
    var files := Sorted(listing);
    var assign := Placement(files, total);
    SortedKeepsFiles(listing, f);
    SortedInOrder(listing);
    var k :| 0 <= k < |files| && files[k] == f;
    home := assign[k];
    forall i | 0 <= i < total ensures f in SplitOf(listing, total)[i] <==> i == home {
      FileIsWhereAssigned(files, assign, f, i);
      if f in FilesOf(files, assign, i) {
        var there :| 0 <= there < |files| && files[there] == f && assign[there] == i;
        OnePosition(files, k, there);
      }
    }
  }

  /** The union of the shards is the whole suite and no file runs twice. */
  lemma EveryFileInExactlyOneShard(listing: seq<TestFile>, total: nat, f: TestFile)
    requires total > 0 && DistinctPaths(listing)
    ensures f in listing ==> exists i :: 0 <= i < total && f in SplitOf(listing, total)[i]
    ensures forall i :: 0 <= i < total && f in SplitOf(listing, total)[i] ==> f in listing
    ensures forall i, j :: 0 <= i < j < total ==>
              !(f in SplitOf(listing, total)[i] && f in SplitOf(listing, total)[j])
  {
    if f in listing {
      var home := HomeOf(listing, total, f);
      assert f in SplitOf(listing, total)[home];
    } else {
      SortedKeepsFiles(listing, f);
      forall i | 0 <= i < total ensures f !in SplitOf(listing, total)[i] {
        FileIsWhereAssigned(Sorted(listing), Placement(Sorted(listing), total), f, i);
      }
    }
  }

  /** Two jobs that list the same files in different orders compute the same shards. */
  lemma SplitIgnoresListingOrder(a: seq<TestFile>, b: seq<TestFile>, total: nat)
    requires total > 0 && DistinctPaths(a) && DistinctPaths(b)
    requires forall f :: f in a <==> f in b
    ensures SplitOf(a, total) == SplitOf(b, total)
  {
    SortedInOrder(a);
    SortedInOrder(b);
    forall f ensures f in Sorted(a) <==> f in Sorted(b) {
      SortedKeepsFiles(a, f);
      SortedKeepsFiles(b, f);
    }
    OrderIsUnique(Sorted(a), Sorted(b));
  }

  function LoadOf(files: seq<TestFile>, m: nat, i: nat): nat
    requires m > 0
  {
    Load(Weights(files), Placement(files, m), i)
  }

  function LastWeight(shard: seq<TestFile>): nat {
    if |shard| == 0 then 0 else Weight(shard[|shard| - 1])
  }

  lemma NextFileTips(files: seq<TestFile>, f: TestFile, after: seq<TestFile>, m: nat, i: nat, j: nat)
    requires i < m && j < m && after == files + [f]
    requires LoadOf(files, m, i) <= LoadOf(files, m, j) + LastWeight(FilesOf(files, Placement(files, m), i))
    ensures LoadOf(after, m, i) <= LoadOf(after, m, j) + LastWeight(FilesOf(after, Placement(after, m), i))
  {
    PlaceNext(files, f, m, i);
    PlaceNext(files, f, m, j);
    LightestIsLightest(LoadsOf(files, m), j);
  }

  lemma {:induction false} LastFileTipsTheShard(files: seq<TestFile>, m: nat, i: nat, j: nat)
    requires i < m && j < m
    ensures LoadOf(files, m, i) <= LoadOf(files, m, j) + LastWeight(FilesOf(files, Placement(files, m), i))
  {
    if |files| > 0 {
      var front, f := files[..|files| - 1], files[|files| - 1];
      LastFileTipsTheShard(front, m, i, j);
      NextFileTips(front, f, files, m, i, j);
    }
  }

  // ---------------------------------------------------------------------------
  // The shards in test methods
  // ---------------------------------------------------------------------------

  /** The test methods of a shard, a file without any counting for one. */
  function Tests(shard: seq<TestFile>): nat {
    if |shard| == 0 then 0 else Max(1, shard[0].methods) + Tests(shard[1..])
  }

  function LastTests(shard: seq<TestFile>): nat {
    if |shard| == 0 then 0 else Max(1, shard[|shard| - 1].methods)
  }

  lemma {:induction false} TestsPush(shard: seq<TestFile>, f: TestFile)
    ensures Tests(shard + [f]) == Tests(shard) + Max(1, f.methods)
  {
    if |shard| > 0 {
      TestsPush(shard[1..], f);
      assert (shard + [f])[1..] == shard[1..] + [f];
    }
  }

  /** What a shard weighs is what it runs. */
  lemma {:induction false} WeightIsTests(shard: seq<TestFile>)
    ensures WeightOf(shard) == Tests(shard)
  {
    if |shard| > 0 {
      var front, f := shard[..|shard| - 1], shard[|shard| - 1];
      WeightIsTests(front);
      TestsPush(front, f);
      assert shard == front + [f];
    }
  }

  /** No shard runs more than another by more than the last file it received. */
  lemma ShardsDifferByOneFile(listing: seq<TestFile>, total: nat, i: nat, j: nat)
    requires i < total && j < total
    ensures var shard := SplitOf(listing, total)[i];
            Tests(shard) <= Tests(SplitOf(listing, total)[j]) + LastTests(shard)
  {
    var files := Sorted(listing);
    var assign := Placement(files, total);
    LastFileTipsTheShard(files, total, i, j);
    ShardWeighsItsLoad(files, assign, i);
    ShardWeighsItsLoad(files, assign, j);
    WeightIsTests(SplitOf(listing, total)[i]);
    WeightIsTests(SplitOf(listing, total)[j]);
  }

  lemma SortedHeaviestFirst(listing: seq<TestFile>)
    requires DistinctPaths(listing)
    ensures HeaviestFirst(Weights(Sorted(listing)))
  {
    var files := Sorted(listing);
    var w := Weights(files);
    SortedInOrder(listing);
    forall j, k | 0 <= j <= k < |w| ensures w[j] >= w[k] {
      if j < k { assert Before(files[j], files[k]); }
    }
  }

  /**
   Against any other way of dealing the files out, no shard runs more than 4/3 - 1/(3 total) times what any
   bound on the other way's shards allows. `rival[k]` names the shard of the k-th file of `Sorted(listing)`.
   */
  lemma SplitIsNearOptimal(listing: seq<TestFile>, total: nat, rival: seq<nat>, bound: nat, i: nat)
    requires i < total && DistinctPaths(listing) && IsAssignment(rival, |Sorted(listing)|, total)
    requires forall r :: 0 <= r < total ==> Tests(FilesOf(Sorted(listing), rival, r)) <= bound
    ensures 3 * total * Tests(SplitOf(listing, total)[i]) <= (4 * total - 1) * bound
  {
    var files := Sorted(listing);
    var w := Weights(files);
    SortedHeaviestFirst(listing);
    forall r | 0 <= r < total ensures Load(w, rival, r) <= bound {
      ShardWeighsItsLoad(files, rival, r);
      WeightIsTests(FilesOf(files, rival, r));
    }
    HeaviestFirstBound(w, total, rival, bound, i);
    ShardWeighsItsLoad(files, Placement(files, total), i);
    WeightIsTests(SplitOf(listing, total)[i]);
  }

  lemma {:induction false} FilesOfInOrder(files: seq<TestFile>, assign: seq<nat>, i: nat)
    requires |assign| == |files| && InOrder(files)
    ensures InOrder(FilesOf(files, assign, i))
  {
    if |files| > 0 {
      var n := |files| - 1;
      FilesOfInOrder(files[..n], assign[..n], i);
      forall f | f in FilesOf(files[..n], assign[..n], i) ensures Before(f, files[n]) {
        FileIsWhereAssigned(files[..n], assign[..n], f, i);
        var k :| 0 <= k < n && files[..n][k] == f && assign[..n][k] == i;
        assert files[k] == f;
      }
    }
  }

  /** Each shard runs its files by falling number of methods (none counting for one), and ties by path. */
  lemma ShardsRunHeaviestFirst(listing: seq<TestFile>, total: nat, i: nat, j: nat, k: nat)
    requires i < total && DistinctPaths(listing) && j < k < |SplitOf(listing, total)[i]|
    ensures var f, g := SplitOf(listing, total)[i][j], SplitOf(listing, total)[i][k];
            || Max(1, f.methods) > Max(1, g.methods)
            || (Max(1, f.methods) == Max(1, g.methods) && PathLess(f.path, g.path))
  {
    SortedInOrder(listing);
    FilesOfInOrder(Sorted(listing), Placement(Sorted(listing), total), i);
    assert Before(SplitOf(listing, total)[i][j], SplitOf(listing, total)[i][k]);
  }

  /** Paths compare at the first character in which they differ, and a path comes before its extensions. */
  lemma {:induction false} PathLessExactlyWhen(a: string, b: string)
    ensures PathLess(a, b) <==>
            exists k :: 0 <= k <= |a| && k < |b| && a[..k] == b[..k] && (k == |a| || a[k] < b[k])
  {
    if |a| > 0 && |b| > 0 && a[0] == b[0] {
      PathLessExactlyWhen(a[1..], b[1..]);
      if PathLess(a[1..], b[1..]) {
        var k :| && 0 <= k <= |a[1..]| && k < |b[1..]| && a[1..][..k] == b[1..][..k]
                 && (k == |a[1..]| || a[1..][k] < b[1..][k]);
        assert a[..k + 1] == [a[0]] + a[1..][..k] && b[..k + 1] == [b[0]] + b[1..][..k];
      }
      if k :| 0 <= k <= |a| && k < |b| && a[..k] == b[..k] && (k == |a| || a[k] < b[k]) {
        assert k > 0 && a[1..][..k - 1] == a[..k][1..] && b[1..][..k - 1] == b[..k][1..];
      }
    } else if |b| > 0 && (|a| == 0 || a[0] < b[0]) {
      assert a[..0] == b[..0];
    } else if |a| > 0 && |b| > 0 {
      forall k | 0 < k <= |a| && k < |b| ensures a[..k] != b[..k] {
        assert a[..k][0] == a[0] && b[..k][0] == b[0];
      }
    }
  }
}
