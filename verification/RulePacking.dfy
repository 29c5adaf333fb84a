// Packing rule files into size-limited ConfigMaps (internal/pkg/manifests/ruler/builder.go).

module RulePacking {
  import opened Basics
  import opened Ordering

  newtype byte = x: int | 0 <= x < 256

  type Content = seq<byte>

  datatype File = File(name: string, content: Content)

  /** The data of one ConfigMap. */
  type Bucket = map<string, Content>

  const MAX_CONFIG_MAP_DATA_SIZE: nat := 1048576 / 2

  // ---------------------------------------------------------------- sizes

  /** The total size of the files of `m` named in `names`, summed in some order. */
  ghost function SizeOfNames(m: map<string, Content>, names: set<string>): nat
    requires names <= m.Keys
  {
    if names == {} then 0
    else
      var k :| k in names;
      |m[k]| + SizeOfNames(m, names - {k})
  }

  /** The order of summation does not matter. */
  lemma {:induction false} SizeRemove(m: map<string, Content>, names: set<string>, k: string)
    requires names <= m.Keys && k in names
    ensures SizeOfNames(m, names) == |m[k]| + SizeOfNames(m, names - {k})
    decreases |names|
  {
    var j :| j in names && SizeOfNames(m, names) == |m[j]| + SizeOfNames(m, names - {j});
    if j == k {
    } else {
      SizeRemove(m, names - {j}, k);
      SizeRemove(m, names - {k}, j);
      assert names - {j} - {k} == names - {k} - {j};
    }
  }

  lemma {:induction false} SizeAgrees(m: map<string, Content>, m': map<string, Content>, names: set<string>)
    requires names <= m.Keys && names <= m'.Keys
    requires forall k | k in names :: m[k] == m'[k]
    ensures SizeOfNames(m, names) == SizeOfNames(m', names)
    decreases |names|
  {
    if names == {} {
    } else {
      var k :| k in names;
      SizeRemove(m, names, k);
      SizeRemove(m', names, k);
      SizeAgrees(m, m', names - {k});
    }
  }

  lemma {:induction false} SizeUnion(m: map<string, Content>, a: set<string>, b: set<string>)
    requires a <= m.Keys && b <= m.Keys
    ensures SizeOfNames(m, a + b) <= SizeOfNames(m, a) + SizeOfNames(m, b)
    decreases |a|
  {
    if a == {} {
      assert a + b == b;
    } else {
      var k :| k in a;
      SizeRemove(m, a, k);
      SizeUnion(m, a - {k}, b);
      if k in b {
        assert a + b == (a - {k}) + b;
      } else {
        SizeRemove(m, a + b, k);
        assert (a + b) - {k} == (a - {k}) + b;
      }
    }
  }

  method BucketSize(bucket: Bucket) returns (totalSize: nat)
    ensures totalSize == SizeOfNames(bucket, bucket.Keys)
  {
    totalSize := 0;
    var remaining := bucket.Keys;
    while remaining != {}
      invariant remaining <= bucket.Keys
      invariant totalSize + SizeOfNames(bucket, remaining) == SizeOfNames(bucket, bucket.Keys)
      decreases |remaining|
    {
      var k :| k in remaining;
      SizeRemove(bucket, remaining, k);
      totalSize := totalSize + |bucket[k]|;
      remaining := remaining - {k};
    }
  }

  function Size(files: seq<File>): nat {
    if files == [] then 0 else |files[0].content| + Size(files[1..])
  }

  lemma {:induction false} SizeConcat(a: seq<File>, b: seq<File>)
    ensures Size(a + b) == Size(a) + Size(b)
  {
    if a == [] {
      assert a + b == b;
    } else {
      assert (a + b)[1..] == a[1..] + b;
      SizeConcat(a[1..], b);
    }
  }

  /** The map that results from storing the files one after the other. */
  function AsBucket(files: seq<File>): Bucket {
    if files == [] then map[]
    else AsBucket(files[..|files| - 1])[files[|files| - 1].name := files[|files| - 1].content]
  }

  lemma BucketSnoc(files: seq<File>, f: File)
    ensures AsBucket(files + [f]) == AsBucket(files)[f.name := f.content]
    ensures Size(files + [f]) == Size(files) + |f.content|
  {
    assert (files + [f])[..|files|] == files;
    SizeConcat(files, [f]);
  }

  predicate NamedBefore(f: File, g: File) {
    Before(f.name, g.name)
  }

  predicate Stored(bucket: Bucket, f: File) {
    f.name in bucket && bucket[f.name] == f.content
  }

  /** `bucket` holds exactly `files`. */
  ghost predicate Holds(bucket: Bucket, files: seq<File>) {
    forall f: File :: f in files <==> Stored(bucket, f)
  }

  lemma FreshName(front: seq<File>, last: File)
    requires StrictlySorted(front + [last], NamedBefore)
    requires Holds(AsBucket(front), front)
    ensures last.name !in AsBucket(front)
  {
    var b, all := AsBucket(front), front + [last];
    if last.name in b {
      var f := File(last.name, b[last.name]);
      assert Stored(b, f);
      var i :| 0 <= i < |front| && front[i] == f;
      assert NamedBefore(all[i], all[|front|]);
      BeforeIrreflexive(last.name);
    }
  }

  lemma {:induction false} BucketHolds(files: seq<File>)
    requires StrictlySorted(files, NamedBefore)
    ensures Holds(AsBucket(files), files)
  {
    if files == [] {
    } else {
      var front, last := files[..|files| - 1], files[|files| - 1];
      BucketHolds(front);
      assert files == front + [last];
      BucketSnoc(front, last);
      FreshName(front, last);
      var b, b' := AsBucket(front), AsBucket(files);
      forall f: File ensures f in files <==> Stored(b', f) {
        assert f in front <==> Stored(b, f);
      }
    }
  }

  lemma SizeWithFile(b: Bucket, f: File)
    requires f.name !in b
    ensures var b' := b[f.name := f.content];
            SizeOfNames(b', b'.Keys) == SizeOfNames(b, b.Keys) + |f.content|
  {
    var b' := b[f.name := f.content];
    SizeRemove(b', b'.Keys, f.name);
    assert b'.Keys - {f.name} == b.Keys;
    SizeAgrees(b, b', b.Keys);
  }

  lemma {:induction false} BucketTotal(files: seq<File>)
    requires StrictlySorted(files, NamedBefore)
    ensures Size(files) == SizeOfNames(AsBucket(files), AsBucket(files).Keys)
  {
    if files == [] {
    } else {
      var front, last := files[..|files| - 1], files[|files| - 1];
      BucketTotal(front);
      assert files == front + [last];
      BucketHolds(front);
      BucketSnoc(front, last);
      FreshName(front, last);
      SizeWithFile(AsBucket(front), last);
    }
  }

  // ---------------------------------------------------------------- next-fit

  /** The buckets that `files` end up in when they are placed one after the other, each into the open
      bucket or, where it does not fit, into a fresh one. */
  function PackFrom(open: seq<File>, files: seq<File>, capacity: nat): (buckets: seq<seq<File>>)
    ensures |buckets| >= 1
    decreases |files|
  {
    if files == [] then [open]
    else if Size(open) + |files[0].content| > capacity then [open] + PackFrom([files[0]], files[1..], capacity)
    else PackFrom(open + [files[0]], files[1..], capacity)
  }

  function Pack(files: seq<File>, capacity: nat): seq<seq<File>> {
    PackFrom([], files, capacity)
  }

  /** `files` lists the rule files in the order of their names. */
  ghost predicate IsListing(ruleFiles: map<string, Content>, files: seq<File>) {
    StrictlySorted(files, NamedBefore) && Holds(ruleFiles, files)
  }

  predicate Oversized(ruleFiles: map<string, Content>, capacity: nat) {
    exists n :: n in ruleFiles && |ruleFiles[n]| > capacity
  }

  function Buckets(files: seq<File>, capacity: nat): seq<Bucket> {
    MapSeq(AsBucket, Pack(files, capacity))
  }

  /** The packing loop is about to place file `i`: `closed` and `open` are the buckets so far. */
  ghost predicate Progress(buckets: seq<Bucket>, closed: seq<seq<File>>, open: seq<File>, files: seq<File>, i: nat,
                           capacity: nat) {
    && i <= |files| && StrictlySorted(open + files[i..], NamedBefore)
    && buckets == MapSeq(AsBucket, closed) + [AsBucket(open)]
    && closed + PackFrom(open, files[i..], capacity) == Pack(files, capacity)
  }

  lemma NothingPlaced(files: seq<File>, capacity: nat)
    requires StrictlySorted(files, NamedBefore)
    ensures Progress([map[]], [], [], files, 0, capacity)
  {
    assert files[0..] == files && [] + files == files;
    assert [] + Pack(files, capacity) == Pack(files, capacity);
  }

  lemma OpenBucket(buckets: seq<Bucket>, closed: seq<seq<File>>, open: seq<File>, files: seq<File>, i: nat,
                   capacity: nat)
    requires Progress(buckets, closed, open, files, i, capacity)
    ensures |buckets| >= 1 && SizeOfNames(buckets[|buckets| - 1], buckets[|buckets| - 1].Keys) == Size(open)
  {
    assert open == (open + files[i..])[..|open|];
    BucketTotal(open);
  }

  lemma PackStep(open: seq<File>, files: seq<File>, i: nat, capacity: nat)
    requires i < |files|
    ensures PackFrom(open, files[i..], capacity) ==
            if Size(open) + |files[i].content| > capacity then [open] + PackFrom([files[i]], files[i + 1..], capacity)
            else PackFrom(open + [files[i]], files[i + 1..], capacity)
    ensures files[i..] == [files[i]] + files[i + 1..]
  {
    assert files[i..][1..] == files[i + 1..];
  }

  lemma ReplaceLast<T>(front: seq<T>, x: T, y: T)
    ensures (front + [x])[|front| := y] == front + [y]
    ensures (front + [x])[|front|] == x
  {
  }

  /** The file goes into the open bucket. */
  lemma PlaceInOpen(buckets: seq<Bucket>, closed: seq<seq<File>>, open: seq<File>, files: seq<File>, i: nat,
                    capacity: nat)
    requires Progress(buckets, closed, open, files, i, capacity) && i < |files|
    requires Size(open) + |files[i].content| <= capacity
    ensures var k := |buckets| - 1;
            && k >= 0
            && Progress(buckets[k := buckets[k][files[i].name := files[i].content]], closed, open + [files[i]],
                        files, i + 1, capacity)
  {
    BucketSnoc(open, files[i]);
    PackStep(open, files, i, capacity);
    Assoc(open, [files[i]], files[i + 1..]);
    ReplaceLast(MapSeq(AsBucket, closed), AsBucket(open), AsBucket(open + [files[i]]));
  }

  lemma Reassociate<T>(a: seq<T>, x: T, b: seq<T>)
    ensures a + ([x] + b) == (a + [x]) + b
    ensures ([x] + b)[1..] == b && ([x] + b)[0] == x
  {
  }

  lemma MapSeqSnoc<A, B>(f: A -> B, s: seq<A>, x: A)
    ensures MapSeq(f, s + [x]) == MapSeq(f, s) + [f(x)]
  {
  }

  /** The file goes into a fresh bucket. */
  lemma PlaceInFresh(buckets: seq<Bucket>, closed: seq<seq<File>>, open: seq<File>, files: seq<File>, i: nat,
                     capacity: nat)
    requires Progress(buckets, closed, open, files, i, capacity) && i < |files|
    requires Size(open) + |files[i].content| > capacity
    ensures Progress(buckets + [map[files[i].name := files[i].content]], closed + [open], [files[i]],
                     files, i + 1, capacity)
  {
    BucketSnoc([], files[i]);
    assert [] + [files[i]] == [files[i]];
    MapSeqSnoc(AsBucket, closed, open);
    PackStep(open, files, i, capacity);
    assert files[i..] == (open + files[i..])[|open|..];
    Reassociate(closed, open, PackFrom([files[i]], files[i + 1..], capacity));
  }

  /** One iteration of the packing loop. */
  method PlaceFile(buckets: seq<Bucket>, currBucketIndex: nat, filename: string, content: Content, capacity: nat,
                   ghost closed: seq<seq<File>>, ghost open: seq<File>, ghost files: seq<File>, ghost i: nat)
    returns (buckets': seq<Bucket>, currBucketIndex': nat, ghost closed': seq<seq<File>>, ghost open': seq<File>)
    requires i < |files| && files[i] == File(filename, content)
    requires Progress(buckets, closed, open, files, i, capacity) && currBucketIndex == |buckets| - 1
    ensures Progress(buckets', closed', open', files, i + 1, capacity) && currBucketIndex' == |buckets'| - 1
  {
    OpenBucket(buckets, closed, open, files, i, capacity);
    var size := BucketSize(buckets[currBucketIndex]);
    buckets', currBucketIndex', closed', open' := buckets, currBucketIndex, closed, open + [files[i]];
    if size + |content| > capacity {
      PlaceInFresh(buckets, closed, open, files, i, capacity);
      closed', open' := closed + [open], [files[i]];
      buckets' := buckets' + [map[]];
      currBucketIndex' := currBucketIndex' + 1;
      assert buckets'[currBucketIndex' := map[filename := content]] == buckets + [map[filename := content]];
    } else {
      PlaceInOpen(buckets, closed, open, files, i, capacity);
    }
    buckets' := buckets'[currBucketIndex' := buckets'[currBucketIndex'][filename := content]];
  }

  lemma AllPlaced(buckets: seq<Bucket>, closed: seq<seq<File>>, open: seq<File>, files: seq<File>, capacity: nat)
    requires Progress(buckets, closed, open, files, |files|, capacity)
    ensures buckets == Buckets(files, capacity)
  {
    assert files[|files|..] == [];
    MapSeqSnoc(AsBucket, closed, open);
  }

  method BuildConfigMaps(buckets: seq<Bucket>) returns (cms: seq<Bucket>)
    ensures cms == buckets
  {
    cms := [];
    for i := 0 to |buckets|
      invariant cms == buckets[..i]
    {
      cms := cms + [buckets[i]];
    }
  }

  function Listed(ruleFiles: map<string, Content>, names: seq<string>): (files: seq<File>)
    requires forall n | n in names :: n in ruleFiles
    ensures |files| == |names|
    ensures forall i | 0 <= i < |names| :: files[i] == File(names[i], ruleFiles[names[i]])
  {
    if names == [] then [] else [File(names[0], ruleFiles[names[0]])] + Listed(ruleFiles, names[1..])
  }

  /** The packing loop and the ConfigMaps built from its buckets. */
  method FillBuckets(ruleFiles: map<string, Content>, fileNames: seq<string>, ghost files: seq<File>, capacity: nat)
    returns (cms: seq<Bucket>)
    requires forall n | n in fileNames :: n in ruleFiles
    requires StrictlySorted(files, NamedBefore) && files == Listed(ruleFiles, fileNames)
    ensures cms == Buckets(files, capacity)
  {
    var buckets: seq<Bucket> := [map[]];
    var currBucketIndex := 0;
    ghost var closed: seq<seq<File>>, open: seq<File> := [], [];
    NothingPlaced(files, capacity);
    for i := 0 to |fileNames|
      invariant currBucketIndex == |buckets| - 1
      invariant Progress(buckets, closed, open, files, i, capacity)
    {
      var filename := fileNames[i];
      buckets, currBucketIndex, closed, open :=
        PlaceFile(buckets, currBucketIndex, filename, ruleFiles[filename], capacity, closed, open, files, i);
    }
    AllPlaced(buckets, closed, open, files, capacity);
    cms := BuildConfigMaps(buckets);
  }

  /** The file names in sorted order, each once. */
  method SortedNames(ruleFiles: map<string, Content>) returns (names: seq<string>)
    ensures StrictlySorted(names, Before)
    ensures forall n :: n in names <==> n in ruleFiles
  {
    names := [];
    var remaining := ruleFiles.Keys;
    while remaining != {}
      invariant remaining <= ruleFiles.Keys
      invariant IsEnumeration(names, ruleFiles.Keys - remaining)
      decreases |remaining|
    {
      var n :| n in remaining;
      names := names + [n];
      remaining := remaining - {n};
    }
    ghost var unsorted := names;
    names := SortStrings(names);
    DistinctByPermuted(unsorted, names, (n: string) => n);
    SameElements(unsorted, names);
    SortedDistinctIsStrict(names);
  }

  lemma ListedIsListing(ruleFiles: map<string, Content>, names: seq<string>)
    requires StrictlySorted(names, Before)
    requires forall n :: n in names <==> n in ruleFiles
    ensures IsListing(ruleFiles, Listed(ruleFiles, names))
  {
    var files := Listed(ruleFiles, names);
    forall f: File ensures f in files <==> Stored(ruleFiles, f) {
      if Stored(ruleFiles, f) {
        var i :| 0 <= i < |names| && names[i] == f.name;
        assert files[i] == f;
      }
    }
  }

  /** `MakeRulesConfigMaps` for any capacity. `None` is the error for a file too large for a ConfigMap. */
  method PackRuleFiles(ruleFiles: map<string, Content>, capacity: nat)
    returns (configMaps: Option<seq<Bucket>>, ghost files: seq<File>)
    ensures configMaps.None? <==> Oversized(ruleFiles, capacity)
    ensures configMaps.Some? ==> IsListing(ruleFiles, files) && configMaps.value == Buckets(files, capacity)
  {
    files := [];
    var unchecked := ruleFiles.Keys;
    while unchecked != {}
      invariant unchecked <= ruleFiles.Keys
      invariant forall n | n in ruleFiles && n !in unchecked :: |ruleFiles[n]| <= capacity
      decreases |unchecked|
    {
      var filename :| filename in unchecked;
      if |ruleFiles[filename]| > capacity {
        return None, files;
      }
      unchecked := unchecked - {filename};
    }
    var fileNames := SortedNames(ruleFiles);
    files := Listed(ruleFiles, fileNames);
    ListedIsListing(ruleFiles, fileNames);
    var buckets := FillBuckets(ruleFiles, fileNames, files, capacity);
    configMaps := Some(buckets);
  }

  // ---------------------------------------------------------------- conservation

  function Flatten(buckets: seq<seq<File>>): seq<File> {
    if buckets == [] then [] else buckets[0] + Flatten(buckets[1..])
  }

  lemma FlattenCons(first: seq<File>, later: seq<seq<File>>)
    ensures Flatten([first] + later) == first + Flatten(later)
  {
    assert ([first] + later)[1..] == later;
  }

  /** Read in order, the buckets are the input: no file is lost, repeated, changed or moved. */
  lemma {:induction false} PackFlattens(open: seq<File>, files: seq<File>, capacity: nat)
    ensures Flatten(PackFrom(open, files, capacity)) == open + files
    decreases |files|
  {
    if files == [] {
      FlattenCons(open, []);
    } else {
      var f, rest := files[0], files[1..];
      assert files == [f] + rest;
      Reassociate(open, f, rest);
      if Size(open) + |f.content| > capacity {
        PackFlattens([f], rest, capacity);
        FlattenCons(open, PackFrom([f], rest, capacity));
      } else {
        PackFlattens(open + [f], rest, capacity);
      }
    }
  }

  /** The first file of bucket `i + 1` did not fit into bucket `i`. */
  ghost predicate Overflows(buckets: seq<seq<File>>, i: nat, capacity: nat)
    requires i + 1 < |buckets|
  {
    buckets[i + 1] != [] && Size(buckets[i]) + |buckets[i + 1][0].content| > capacity
  }

  /** Every bucket is within capacity, none but possibly the first starts empty, and a bucket was opened
      only because its first file did not fit into the previous one. */
  lemma {:induction false} PackShape(open: seq<File>, files: seq<File>, capacity: nat)
    requires Size(open) <= capacity && forall f | f in files :: |f.content| <= capacity
    ensures var buckets := PackFrom(open, files, capacity);
            && open <= buckets[0]
            && (files != [] && open == [] ==> buckets[0] != [])
            && (forall i | 0 <= i < |buckets| :: Size(buckets[i]) <= capacity)
            && (forall i | 0 <= i < |buckets| - 1 :: Overflows(buckets, i, capacity))
    decreases |files|
  {
    if files != [] {
      var f, rest := files[0], files[1..];
      var buckets := PackFrom(open, files, capacity);
      BucketSnoc(open, f);
      if Size(open) + |f.content| > capacity {
        PackShape([f], rest, capacity);
        var later := PackFrom([f], rest, capacity);
        assert later[0][0] == [f][0];
        forall i | 0 <= i < |buckets| - 1 ensures Overflows(buckets, i, capacity) {
          assert i > 0 ==> Overflows(later, i - 1, capacity);
        }
      } else {
        PackShape(open + [f], rest, capacity);
      }
    }
  }

  lemma {:induction false} FlattenMembers(buckets: seq<seq<File>>)
    ensures forall f :: f in Flatten(buckets) <==> exists i :: 0 <= i < |buckets| && f in buckets[i]
  {
    if buckets == [] {
    } else {
      FlattenMembers(buckets[1..]);
      forall f ensures f in Flatten(buckets) <==> exists i :: 0 <= i < |buckets| && f in buckets[i] {
        if f in Flatten(buckets[1..]) {
          var i :| 0 <= i < |buckets[1..]| && f in buckets[1..][i];
          assert f in buckets[i + 1];
        }
        if i :| 0 <= i < |buckets| && f in buckets[i] {
          assert i > 0 ==> buckets[i] == buckets[1..][i - 1];
        }
      }
    }
  }

  /** If the buckets read in order are sorted by name, then so is each, and so are the buckets. */
  lemma {:induction false} FlattenSorted(buckets: seq<seq<File>>, i: nat, j: nat)
    requires StrictlySorted(Flatten(buckets), NamedBefore) && i <= j < |buckets|
    ensures StrictlySorted(buckets[i], NamedBefore)
    ensures i < j ==> forall f, g | f in buckets[i] && g in buckets[j] :: NamedBefore(f, g)
  {
    var all, later := Flatten(buckets), Flatten(buckets[1..]);
    assert later == all[|buckets[0]|..];
    if i > 0 {
      FlattenSorted(buckets[1..], i - 1, j - 1);
    } else if j > 0 {
      FlattenMembers(buckets[1..]);
      forall f, g | f in buckets[0] && g in buckets[j] ensures NamedBefore(f, g) {
        assert buckets[1..][j - 1] == buckets[j] && g in later;
        var p :| 0 <= p < |buckets[0]| && buckets[0][p] == f;
        var q :| 0 <= q < |later| && later[q] == g;
        assert all[p] == f && all[|buckets[0]| + q] == g;
      }
    }
  }

  /** Each bucket is within capacity, and none is empty unless there is no file at all. */
  ghost predicate WithinCapacity(ruleFiles: map<string, Content>, b: seq<Bucket>, capacity: nat) {
    forall i | 0 <= i < |b| ::
      SizeOfNames(b[i], b[i].Keys) <= capacity && (ruleFiles != map[] ==> b[i] != map[])
  }

  /** The buckets hold exactly the rule files, with their contents, and no name is in two buckets. */
  ghost predicate Partitions(ruleFiles: map<string, Content>, b: seq<Bucket>) {
    && (forall f: File :: Stored(ruleFiles, f) <==> exists i | 0 <= i < |b| :: Stored(b[i], f))
    && (forall i, j, n | 0 <= i < |b| && 0 <= j < |b| && n in b[i] && n in b[j] :: i == j)
  }

  ghost predicate OrderedByName(b: seq<Bucket>) {
    forall i, j, x, y | 0 <= i < j < |b| && x in b[i] && y in b[j] :: Before(x, y)
  }

  lemma PackedHolds(files: seq<File>, capacity: nat, i: nat)
    requires StrictlySorted(files, NamedBefore) && i < |Pack(files, capacity)|
    ensures Holds(Buckets(files, capacity)[i], Pack(files, capacity)[i])
    ensures StrictlySorted(Pack(files, capacity)[i], NamedBefore)
  {
    var packed := Pack(files, capacity);
    PackFlattens([], files, capacity);
    assert [] + files == files;
    FlattenSorted(packed, i, i);
    BucketHolds(packed[i]);
  }

  lemma PackedOrder(files: seq<File>, capacity: nat, i: nat, j: nat, f: File, g: File)
    requires StrictlySorted(files, NamedBefore) && i < j < |Pack(files, capacity)|
    requires f in Pack(files, capacity)[i] && g in Pack(files, capacity)[j]
    ensures NamedBefore(f, g)
  {
    PackFlattens([], files, capacity);
    assert [] + files == files;
    FlattenSorted(Pack(files, capacity), i, j);
  }

  lemma BucketsOrdered(files: seq<File>, capacity: nat)
    requires StrictlySorted(files, NamedBefore)
    ensures OrderedByName(Buckets(files, capacity))
  {
    var b := Buckets(files, capacity);
    forall i, j, x, y | 0 <= i < j < |b| && x in b[i] && y in b[j] ensures Before(x, y) {
      PackedHolds(files, capacity, i);
      PackedHolds(files, capacity, j);
      assert Stored(b[i], File(x, b[i][x])) && Stored(b[j], File(y, b[j][y]));
      PackedOrder(files, capacity, i, j, File(x, b[i][x]), File(y, b[j][y]));
    }
  }

  lemma BucketsDisjoint(b: seq<Bucket>, i: nat, j: nat, n: string)
    requires OrderedByName(b) && i < |b| && j < |b| && n in b[i] && n in b[j]
    ensures i == j
  {
    BeforeIrreflexive(n);
  }

  lemma BucketsPartition(ruleFiles: map<string, Content>, files: seq<File>, capacity: nat)
    requires IsListing(ruleFiles, files)
    ensures Partitions(ruleFiles, Buckets(files, capacity))
  {
    var b, packed := Buckets(files, capacity), Pack(files, capacity);
    PackFlattens([], files, capacity);
    assert [] + files == files;
    FlattenMembers(packed);
    forall i | 0 <= i < |b| ensures Holds(b[i], packed[i]) {
      PackedHolds(files, capacity, i);
    }
    forall f: File ensures Stored(ruleFiles, f) <==> exists i | 0 <= i < |b| :: Stored(b[i], f) {
      assert Stored(ruleFiles, f) <==> f in files;
      if f in files {
        var i :| 0 <= i < |packed| && f in packed[i];
        assert Stored(b[i], f);
      }
      if i :| 0 <= i < |b| && Stored(b[i], f) {
        assert f in packed[i];
      }
    }
    BucketsOrdered(files, capacity);
    forall i, j, n | 0 <= i < |b| && 0 <= j < |b| && n in b[i] && n in b[j] ensures i == j {
      BucketsDisjoint(b, i, j, n);
    }
  }

  lemma BucketsWithinCapacity(ruleFiles: map<string, Content>, files: seq<File>, capacity: nat)
    requires IsListing(ruleFiles, files) && !Oversized(ruleFiles, capacity)
    ensures WithinCapacity(ruleFiles, Buckets(files, capacity), capacity)
  {
    var b, packed := Buckets(files, capacity), Pack(files, capacity);
    forall f | f in files ensures |f.content| <= capacity {
      assert Stored(ruleFiles, f);
    }
    PackShape([], files, capacity);
    if ruleFiles != map[] {
      var n :| n in ruleFiles;
      assert Stored(ruleFiles, File(n, ruleFiles[n]));
    }
    forall i | 0 <= i < |b| ensures SizeOfNames(b[i], b[i].Keys) <= capacity && (ruleFiles != map[] ==> b[i] != map[]) {
      PackedHolds(files, capacity, i);
      BucketTotal(packed[i]);
      assert i > 0 ==> Overflows(packed, i - 1, capacity);
      if packed[i] != [] {
        assert Stored(b[i], packed[i][0]);
      }
    }
  }

  /** Packing conserves the rule files: every file in exactly one bucket with its content and nothing
      else, all buckets within capacity and non-empty, and the buckets ordered by name. */
  lemma PackingConserves(ruleFiles: map<string, Content>, files: seq<File>, capacity: nat)
    requires IsListing(ruleFiles, files) && !Oversized(ruleFiles, capacity)
    ensures Partitions(ruleFiles, Buckets(files, capacity))
    ensures WithinCapacity(ruleFiles, Buckets(files, capacity), capacity)
    ensures OrderedByName(Buckets(files, capacity))
  {
    BucketsPartition(ruleFiles, files, capacity);
    BucketsWithinCapacity(ruleFiles, files, capacity);
    BucketsOrdered(files, capacity);
  }

  /** `MakeRulesConfigMaps` with the operator's capacity: unless some file alone is above half a mebibyte, the
      ConfigMaps partition the files in the order of their names, and none is above half a mebibyte. */
  method MakeRulesConfigMaps(ruleFiles: map<string, Content>)
    returns (configMaps: Option<seq<Bucket>>, ghost files: seq<File>)
    ensures configMaps.None? <==> exists n :: n in ruleFiles && |ruleFiles[n]| > 524288
    ensures configMaps.Some? ==>
              && IsListing(ruleFiles, files) && configMaps.value == Buckets(files, 524288)
              && Partitions(ruleFiles, configMaps.value) && OrderedByName(configMaps.value)
              && WithinCapacity(ruleFiles, configMaps.value, 524288)
  {
    configMaps, files := PackRuleFiles(ruleFiles, MAX_CONFIG_MAP_DATA_SIZE);
    if configMaps.Some? {
      PackingConserves(ruleFiles, files, MAX_CONFIG_MAP_DATA_SIZE);
    }
  }

  lemma NamedBeforeIsOrder(s: seq<File>)
    ensures StrictWeakOrder(s, NamedBefore)
  {
    forall x, y | x in s && y in s && NamedBefore(x, y) ensures !NamedBefore(y, x) {
      BeforeAsymmetric(x.name, y.name);
    }
    forall x, y, z | x in s && y in s && z in s && !NamedBefore(x, y) && !NamedBefore(y, z) ensures !NamedBefore(x, z) {
      NotBeforeTransitive(x.name, y.name, z.name);
    }
  }

  /** The listing is unique, so the ConfigMaps are a function of the rule-file map alone. */
  lemma ListingUnique(ruleFiles: map<string, Content>, files: seq<File>, files': seq<File>)
    requires IsListing(ruleFiles, files) && IsListing(ruleFiles, files')
    ensures files == files'
  {
    forall f ensures f in files <==> f in files' {
      assert Stored(ruleFiles, f) <==> f in files;
    }
    NamedBeforeIsOrder(files);
    StrictlySortedUnique(files, files', NamedBefore);
  }

  // ---------------------------------------------------------------- the approximation bound

  function TotalSize(buckets: seq<seq<File>>): nat {
    if buckets == [] then 0 else Size(buckets[0]) + TotalSize(buckets[1..])
  }

  lemma {:induction false} FlattenSize(buckets: seq<seq<File>>)
    ensures Size(Flatten(buckets)) == TotalSize(buckets)
  {
    if buckets == [] {
    } else {
      FlattenSize(buckets[1..]);
      SizeConcat(buckets[0], Flatten(buckets[1..]));
    }
  }

  lemma MultiplySuccessor(k: nat, c: nat)
    ensures (k + 1) * c == k * c + c
  {
  }

  /** Each two consecutive buckets together exceed the capacity, hence so do disjoint pairs, pair by pair. */
  lemma {:induction false} PairsExceed(buckets: seq<seq<File>>, capacity: nat)
    requires |buckets| >= 2
    requires forall i | 0 <= i < |buckets| - 1 :: Overflows(buckets, i, capacity)
    ensures forall i | 0 <= i < |buckets| - 1 :: Size(buckets[i]) + Size(buckets[i + 1]) > capacity
    ensures TotalSize(buckets) > (|buckets| / 2) * capacity
  {
    var later := buckets[2..];
    forall i | 0 <= i < |buckets| - 1 ensures Size(buckets[i]) + Size(buckets[i + 1]) > capacity {
      assert Overflows(buckets, i, capacity) && Size(buckets[i + 1]) >= |buckets[i + 1][0].content|;
    }
    assert buckets[1..][0] == buckets[1] && buckets[1..][1..] == later;
    assert TotalSize(buckets) == Size(buckets[0]) + Size(buckets[1]) + TotalSize(later);
    if |later| >= 2 {
      forall i | 0 <= i < |later| - 1 ensures Overflows(later, i, capacity) {
        assert Overflows(buckets, i + 2, capacity);
      }
      PairsExceed(later, capacity);
      assert |buckets| / 2 == |later| / 2 + 1;
      MultiplySuccessor(|later| / 2, capacity);
    } else {
      assert |buckets| / 2 == 1;
    }
  }

  ghost predicate Bins(ruleFiles: map<string, Content>, capacity: nat, bins: seq<set<string>>) {
    forall i | 0 <= i < |bins| :: bins[i] <= ruleFiles.Keys && SizeOfNames(ruleFiles, bins[i]) <= capacity
  }

  predicate Cover(bins: seq<set<string>>, names: set<string>) {
    forall n | n in names :: exists i :: 0 <= i < |bins| && n in bins[i]
  }

  /** Some other way to store all the rule files within the capacity; bins may even overlap. */
  ghost predicate IsPacking(ruleFiles: map<string, Content>, capacity: nat, bins: seq<set<string>>) {
    Bins(ruleFiles, capacity, bins) && Cover(bins, ruleFiles.Keys)
  }

  lemma CoverWithoutLast(bins: seq<set<string>>, names: set<string>)
    requires bins != [] && Cover(bins, names)
    ensures Cover(bins[..|bins| - 1], names - bins[|bins| - 1])
  {
    var others, rest := bins[..|bins| - 1], names - bins[|bins| - 1];
    forall n | n in rest ensures exists i :: 0 <= i < |others| && n in others[i] {
      var i :| 0 <= i < |bins| && n in bins[i];
      assert n in others[i];
    }
  }

  lemma CoverNothing(names: set<string>)
    requires Cover([], names)
    ensures names == {}
  {
  }

  lemma {:induction false} SizeMonotone(m: map<string, Content>, a: set<string>, b: set<string>)
    requires a <= b <= m.Keys
    ensures SizeOfNames(m, a) <= SizeOfNames(m, b)
    decreases |b|
  {
    if a == b {
    } else {
      var k :| k in b && k !in a;
      SizeRemove(m, b, k);
      SizeMonotone(m, a, b - {k});
    }
  }

  lemma {:induction false} CoverSize(ruleFiles: map<string, Content>, capacity: nat, bins: seq<set<string>>,
                                     names: set<string>)
    requires Bins(ruleFiles, capacity, bins) && names <= ruleFiles.Keys && Cover(bins, names)
    ensures SizeOfNames(ruleFiles, names) <= |bins| * capacity
  {
    if bins == [] {
      CoverNothing(names);
    } else {
      var n := |bins| - 1;
      var last, rest := bins[n], names - bins[n];
      CoverWithoutLast(bins, names);
      CoverSize(ruleFiles, capacity, bins[..n], rest);
      SizeUnion(ruleFiles, rest, last);
      SizeMonotone(ruleFiles, names, rest + last);
      MultiplySuccessor(n, capacity);
    }
  }

  lemma ListingSize(ruleFiles: map<string, Content>, files: seq<File>)
    requires IsListing(ruleFiles, files)
    ensures Size(files) == SizeOfNames(ruleFiles, ruleFiles.Keys)
  {
    var b := AsBucket(files);
    BucketHolds(files);
    BucketTotal(files);
    forall n ensures (n in b <==> n in ruleFiles) && (n in b ==> b[n] == ruleFiles[n]) {
      if n in b { assert Stored(b, File(n, b[n])) && Stored(ruleFiles, File(n, b[n])); }
      if n in ruleFiles { assert Stored(ruleFiles, File(n, ruleFiles[n])) && Stored(b, File(n, ruleFiles[n])); }
    }
    assert b == ruleFiles;
  }

  lemma MultiplyMonotone(a: nat, b: nat, c: nat)
    requires a <= b
    ensures a * c <= b * c
  {
  }

  /** The packed files are all the files, so the buckets hold no more than the bins of any packing do. */
  lemma PackedTotal(ruleFiles: map<string, Content>, files: seq<File>, capacity: nat, bins: seq<set<string>>)
    requires IsListing(ruleFiles, files) && !Oversized(ruleFiles, capacity) && IsPacking(ruleFiles, capacity, bins)
    ensures var packed := Pack(files, capacity);
            && packed != []
            && TotalSize(packed) <= |bins| * capacity
            && (forall i | 0 <= i < |packed| :: Size(packed[i]) <= capacity)
            && (forall i | 0 <= i < |packed| - 1 :: Overflows(packed, i, capacity))
  {
    forall f | f in files ensures |f.content| <= capacity {
      assert Stored(ruleFiles, f);
    }
    PackShape([], files, capacity);
    PackFlattens([], files, capacity);
    assert [] + files == files;
    FlattenSize(Pack(files, capacity));
    ListingSize(ruleFiles, files);
    CoverSize(ruleFiles, capacity, bins, ruleFiles.Keys);
  }

  /** The next-fit bound: with `m` bins enough for anybody, the operator writes at most `2m - 1` ConfigMaps. */
  lemma NextFitBound(ruleFiles: map<string, Content>, files: seq<File>, capacity: nat, bins: seq<set<string>>)
    requires IsListing(ruleFiles, files) && !Oversized(ruleFiles, capacity)
    requires ruleFiles != map[] && IsPacking(ruleFiles, capacity, bins)
    ensures |Buckets(files, capacity)| <= 2 * |bins| - 1
  {
    var packed := Pack(files, capacity);
    PackedTotal(ruleFiles, files, capacity, bins);
    assert |bins| >= 1 by {
      var n :| n in ruleFiles;
      var i :| 0 <= i < |bins| && n in bins[i];
    }
    if |packed| >= 2 {
      PairsExceed(packed, capacity);
      if |packed| / 2 >= |bins| {
        MultiplyMonotone(|bins|, |packed| / 2, capacity);
      }
    }
  }

  // ---------------------------------------------------------------- the bound is attained

  function Zeros(n: nat): Content {
    seq(n, _ => 0 as byte)
  }

  function Letters(n: nat): string {
    seq(n, _ => 'a')
  }

  lemma {:induction false} LettersOrdered(i: nat, j: nat)
    requires i < j
    ensures Before(Letters(i), Letters(j))
  {
    if i == 0 {
    } else {
      LettersOrdered(i - 1, j - 1);
      assert Letters(i)[1..] == Letters(i - 1) && Letters(j)[1..] == Letters(j - 1);
    }
  }

  /** Files of size 1 and of size `capacity` in turn, ordered by name. */
  function Alternating(n: nat, capacity: nat): (files: seq<File>)
    ensures |files| == n
    ensures forall i | 0 <= i < n :: files[i] == File(Letters(i), Zeros(if i % 2 == 0 then 1 else capacity))
  {
    if n == 0 then []
    else Alternating(n - 1, capacity) + [File(Letters(n - 1), Zeros(if n % 2 == 1 then 1 else capacity))]
  }

  function Singletons(files: seq<File>): (buckets: seq<seq<File>>)
    ensures |buckets| == |files| && forall i | 0 <= i < |files| :: buckets[i] == [files[i]]
  {
    if files == [] then [] else [[files[0]]] + Singletons(files[1..])
  }

  /** When no file fits beside its predecessor, every file gets a bucket of its own. */
  lemma {:induction false} OneBucketEach(files: seq<File>, capacity: nat)
    requires files != []
    requires forall i | 0 <= i < |files| - 1 :: |files[i].content| + |files[i + 1].content| > capacity
    ensures PackFrom([files[0]], files[1..], capacity) == Singletons(files)
  {
    if |files| <= 1 {
    } else {
      assert Size([files[0]]) == |files[0].content|;
      assert files[1..][0] == files[1] && files[1..][1..] == files[2..];
      OneBucketEach(files[1..], capacity);
    }
  }

  lemma AlternatingPacks(n: nat, capacity: nat)
    requires n >= 1 && capacity >= 1
    ensures Pack(Alternating(n, capacity), capacity) == Singletons(Alternating(n, capacity))
    ensures |Buckets(Alternating(n, capacity), capacity)| == n
  {
    var files := Alternating(n, capacity);
    OneBucketEach(files, capacity);
    assert [] + [files[0]] == [files[0]];
  }

  lemma AlternatingListing(n: nat, capacity: nat)
    ensures IsListing(AsBucket(Alternating(n, capacity)), Alternating(n, capacity))
  {
    var files := Alternating(n, capacity);
    forall i, j | 0 <= i < j < n ensures NamedBefore(files[i], files[j]) {
      LettersOrdered(i, j);
    }
    BucketHolds(files);
  }

  /** The names of the first `m` small files. */
  function SmallNames(m: nat): (names: set<string>)
    ensures forall n | n in names :: |n| < 2 * m
    ensures forall i: nat | i < m :: Letters(2 * i) in names
  {
    if m == 0 then {} else SmallNames(m - 1) + {Letters(2 * (m - 1))}
  }

  lemma {:induction false} SmallNamesSize(m: nat, ruleFiles: map<string, Content>)
    requires forall i: nat | i < m :: Letters(2 * i) in ruleFiles && |ruleFiles[Letters(2 * i)]| == 1
    ensures SmallNames(m) <= ruleFiles.Keys && SizeOfNames(ruleFiles, SmallNames(m)) == m
  {
    if m == 0 {
    } else {
      var name := Letters(2 * (m - 1));
      SmallNamesSize(m - 1, ruleFiles);
      assert |name| == 2 * (m - 1) && name !in SmallNames(m - 1);
      assert SmallNames(m) - {name} == SmallNames(m - 1);
      SizeRemove(ruleFiles, SmallNames(m), name);
    }
  }

  function BigBins(m: nat): (bins: seq<set<string>>)
    ensures |bins| == m && forall i | 0 <= i < m :: bins[i] == {Letters(2 * i + 1)}
  {
    if m == 0 then [] else BigBins(m - 1) + [{Letters(2 * m - 1)}]
  }

  /** `ruleFiles` holds `n` files, of size 1 and of size `capacity` in turn. */
  ghost predicate HoldsAlternating(ruleFiles: map<string, Content>, n: nat, capacity: nat) {
    && (forall i: nat | i < n ::
         Letters(i) in ruleFiles && |ruleFiles[Letters(i)]| == (if i % 2 == 0 then 1 else capacity))
    && (forall k | k in ruleFiles :: |k| < n && k == Letters(|k|))
  }

  lemma AlternatingEntries(ruleFiles: map<string, Content>, n: nat, capacity: nat)
    requires Holds(ruleFiles, Alternating(n, capacity))
    ensures HoldsAlternating(ruleFiles, n, capacity)
  {
    var files := Alternating(n, capacity);
    forall i: nat | i < n
      ensures Letters(i) in ruleFiles && |ruleFiles[Letters(i)]| == (if i % 2 == 0 then 1 else capacity)
    {
      assert Stored(ruleFiles, files[i]);
    }
    forall k | k in ruleFiles ensures |k| < n && k == Letters(|k|) {
      assert Stored(ruleFiles, File(k, ruleFiles[k]));
      var i :| 0 <= i < n && files[i] == File(k, ruleFiles[k]);
    }
  }

  lemma BinSizes(m: nat, capacity: nat, ruleFiles: map<string, Content>, i: nat)
    requires i < m <= capacity && HoldsAlternating(ruleFiles, 2 * m - 1, capacity)
    ensures var bin := if i < m - 1 then {Letters(2 * i + 1)} else SmallNames(m);
            bin <= ruleFiles.Keys && SizeOfNames(ruleFiles, bin) <= capacity
  {
    if i < m - 1 {
      var name := Letters(2 * i + 1);
      SizeRemove(ruleFiles, {name}, name);
      assert {name} - {name} == {};
    } else {
      SmallNamesSize(m, ruleFiles);
    }
  }

  lemma LettersBin(m: nat, bins: seq<set<string>>, n: string)
    requires m >= 1 && bins == BigBins(m - 1) + [SmallNames(m)]
    requires n == Letters(|n|) && |n| < 2 * m - 1
    ensures exists i :: 0 <= i < |bins| && n in bins[i]
  {
    var k := |n| / 2;
    if |n| % 2 == 1 {
      assert n == Letters(2 * k + 1) && n in bins[k];
    } else {
      assert n == Letters(2 * k) && n in bins[m - 1];
    }
  }

  lemma AlternatingFits(m: nat, capacity: nat, ruleFiles: map<string, Content>, bins: seq<set<string>>)
    requires 1 <= m <= capacity && HoldsAlternating(ruleFiles, 2 * m - 1, capacity)
    requires bins == BigBins(m - 1) + [SmallNames(m)]
    ensures IsPacking(ruleFiles, capacity, bins)
  {
    forall i | 0 <= i < |bins| ensures bins[i] <= ruleFiles.Keys && SizeOfNames(ruleFiles, bins[i]) <= capacity {
      BinSizes(m, capacity, ruleFiles, i);
    }
    forall n | n in ruleFiles ensures exists i :: 0 <= i < |bins| && n in bins[i] {
      LettersBin(m, bins, n);
    }
  }

  lemma AlternatingFitsSingly(n: nat, capacity: nat, ruleFiles: map<string, Content>)
    requires capacity >= 1 && HoldsAlternating(ruleFiles, n, capacity)
    ensures !Oversized(ruleFiles, capacity)
  {
    forall k | k in ruleFiles ensures |ruleFiles[k]| <= capacity {
      assert k == Letters(|k|);
    }
  }

  /** Rule files that fit into `m` ConfigMaps and are given `2m - 1`. */
  ghost predicate AttainsBound(ruleFiles: map<string, Content>, files: seq<File>, capacity: nat,
                               bins: seq<set<string>>, m: nat) {
    && IsListing(ruleFiles, files) && !Oversized(ruleFiles, capacity)
    && IsPacking(ruleFiles, capacity, bins) && |bins| == m
    && |Buckets(files, capacity)| == 2 * m - 1
  }

  /** There are such rule files for every `m` up to the capacity. */
  lemma BoundIsTight(m: nat, capacity: nat)
    returns (ruleFiles: map<string, Content>, files: seq<File>, bins: seq<set<string>>)
    requires 1 <= m <= capacity
    ensures AttainsBound(ruleFiles, files, capacity, bins, m)
  {
    var n := 2 * m - 1;
    files := Alternating(n, capacity);
    ruleFiles, bins := AsBucket(files), BigBins(m - 1) + [SmallNames(m)];
    AlternatingListing(n, capacity);
    AlternatingPacks(n, capacity);
    AlternatingEntries(ruleFiles, n, capacity);
    AlternatingFits(m, capacity, ruleFiles, bins);
    AlternatingFitsSingly(n, capacity, ruleFiles);
  }

  /** A single ConfigMap is written even for no rule files at all. */
  lemma OneIsAttained(capacity: nat)
    ensures AttainsBound(map[], [], capacity, [{}], 1)
  {
    BucketHolds([]);
    assert AsBucket([]) == map[];
  }

  lemma PairSize(buckets: seq<seq<File>>, capacity: nat)
    requires |buckets| >= 2 && Overflows(buckets, 0, capacity)
    ensures TotalSize(buckets) >= capacity + 1 + TotalSize(buckets[2..])
  {
    assert buckets[1..][0] == buckets[1] && buckets[1..][1..] == buckets[2..];
    assert Size(buckets[1]) >= |buckets[1][0].content|;
  }

  /** Consecutive buckets exceed the capacity by one byte at least, and one that is left over is not empty. */
  lemma {:induction false} PairsExceedByOne(buckets: seq<seq<File>>, capacity: nat)
    requires buckets != []
    requires forall i | 0 <= i < |buckets| :: Size(buckets[i]) <= capacity
    requires forall i | 0 <= i < |buckets| - 1 :: Overflows(buckets, i, capacity)
    requires |buckets| == 1 ==> Size(buckets[0]) >= 1
    ensures TotalSize(buckets) >= (|buckets| / 2) * (capacity + 1) + |buckets| % 2
  {
    if |buckets| >= 2 {
      var later := buckets[2..];
      PairSize(buckets, capacity);
      if later != [] {
        forall i | 0 <= i < |later| - 1 ensures Overflows(later, i, capacity) {
          assert Overflows(buckets, i + 2, capacity);
        }
        assert Overflows(buckets, 1, capacity) && Size(later[0]) >= |later[0][0].content|;
        PairsExceedByOne(later, capacity);
      }
      assert |buckets| / 2 == |later| / 2 + 1 && |buckets| % 2 == |later| % 2;
      MultiplySuccessor(|later| / 2, capacity + 1);
    } else {
      assert buckets[1..] == [];
    }
  }

  /** More bytes than `m` ConfigMaps hold. */
  lemma TooManyBytes(m: nat, capacity: nat)
    requires m >= 2 && m > capacity
    ensures (m - 1) * (capacity + 1) + 1 > m * capacity
  {
    calc {
      (m - 1) * (capacity + 1);
      m * (capacity + 1) - (capacity + 1);
      m * capacity + m - capacity - 1;
    }
  }

  /** The bound `2m - 1` is attained exactly up to the capacity. With more ConfigMaps than that, two that
      follow each other waste too little. */
  lemma BoundIsTightExactlyWhen(m: nat, capacity: nat)
    requires m >= 1
    ensures m == 1 || m <= capacity <==>
            exists ruleFiles, files, bins :: AttainsBound(ruleFiles, files, capacity, bins, m)
  {
    if m <= capacity {
      var ruleFiles, files, bins := BoundIsTight(m, capacity);
    } else if m == 1 {
      OneIsAttained(capacity);
    }
    if ruleFiles, files, bins :| AttainsBound(ruleFiles, files, capacity, bins, m) {
      var packed := Pack(files, capacity);
      PackedTotal(ruleFiles, files, capacity, bins);
      if m >= 2 {
        PairsExceedByOne(packed, capacity);
        assert |packed| / 2 == m - 1 && |packed| % 2 == 1;
        if m > capacity {
          TooManyBytes(m, capacity);
        }
      }
    }
  }

  // ---------------------------------------------------------------- stability

  /** Placing `late` after `early` leaves every bucket `early` closed alone and carries on with the open one. */
  lemma {:induction false} PackAppend(open: seq<File>, early: seq<File>, late: seq<File>, capacity: nat)
    ensures var p := PackFrom(open, early, capacity);
            PackFrom(open, early + late, capacity) == p[..|p| - 1] + PackFrom(p[|p| - 1], late, capacity)
    decreases |early|
  {
    if early == [] {
      assert early + late == late;
    } else {
      var f := early[0];
      assert (early + late)[1..] == early[1..] + late;
      if Size(open) + |f.content| > capacity {
        PackAppend([f], early[1..], late, capacity);
        var p, r := PackFrom(open, early, capacity), PackFrom([f], early[1..], capacity);
        assert p == [open] + r && p[..|p| - 1] == [open] + r[..|r| - 1];
      } else {
        PackAppend(open + [f], early[1..], late, capacity);
      }
    }
  }

  /** The open bucket only grows, by files placed later. */
  lemma {:induction false} OpenGrows(open: seq<File>, late: seq<File>, capacity: nat)
    ensures open <= PackFrom(open, late, capacity)[0] <= open + late
    decreases |late|
  {
    if late != [] && Size(open) + |late[0].content| <= capacity {
      OpenGrows(open + [late[0]], late[1..], capacity);
      assert open + [late[0]] + late[1..] == open + late;
    }
  }

  // ---------------------------------------------------------------- first-fit

  predicate HasRoom(bucket: seq<File>, f: File, capacity: nat) {
    Size(bucket) + |f.content| <= capacity
  }

  /** First-fit: a file goes into the first bucket that has room, or into a fresh one. */
  function PlaceFirst(buckets: seq<seq<File>>, f: File, capacity: nat): (placed: seq<seq<File>>)
    ensures |buckets| <= |placed| && forall i | 0 <= i < |buckets| :: buckets[i] <= placed[i]
  {
    if buckets == [] then [[f]]
    else if HasRoom(buckets[0], f, capacity) then [buckets[0] + [f]] + buckets[1..]
    else [buckets[0]] + PlaceFirst(buckets[1..], f, capacity)
  }

  function FirstFit(files: seq<File>, capacity: nat): (buckets: seq<seq<File>>)
    ensures buckets != []
  {
    if files == [] then [[]] else PlaceFirst(FirstFit(files[..|files| - 1], capacity), files[|files| - 1], capacity)
  }

  /** No bucket but the last has room for the file. */
  predicate OnlyLastHasRoom(buckets: seq<seq<File>>, f: File, capacity: nat) {
    |buckets| <= 1 || (!HasRoom(buckets[0], f, capacity) && OnlyLastHasRoom(buckets[1..], f, capacity))
  }

  /** Next-fit: what packing does with one more file. */
  function PlaceNext(buckets: seq<seq<File>>, f: File, capacity: nat): seq<seq<File>>
    requires buckets != []
  {
    if |buckets| > 1 then [buckets[0]] + PlaceNext(buckets[1..], f, capacity)
    else if HasRoom(buckets[0], f, capacity) then [buckets[0] + [f]]
    else [buckets[0], [f]]
  }

  lemma PackOne(open: seq<File>, f: File, capacity: nat)
    ensures PackFrom(open, [f], capacity) == if HasRoom(open, f, capacity) then [open + [f]] else [open, [f]]
  {
    assert [f][1..] == [];
  }

  lemma {:induction false} PlaceNextLast(closed: seq<seq<File>>, open: seq<File>, f: File, capacity: nat)
    ensures PlaceNext(closed + [open], f, capacity) == closed + PackFrom(open, [f], capacity)
  {
    PackOne(open, f, capacity);
    if closed == [] {
      assert closed + [open] == [open];
    } else {
      PlaceNextLast(closed[1..], open, f, capacity);
      assert closed + [open] == [closed[0]] + (closed[1..] + [open]);
      assert (closed + [open])[1..] == closed[1..] + [open];
    }
  }

  lemma PackSnoc(files: seq<File>, f: File, capacity: nat)
    ensures Pack(files + [f], capacity) == PlaceNext(Pack(files, capacity), f, capacity)
  {
    PackAppend([], files, [f], capacity);
    var p := Pack(files, capacity);
    var n := |p| - 1;
    assert p == p[..n] + [p[n]];
    PlaceNextLast(p[..n], p[n], f, capacity);
  }

  /** Both strategies place a file alike if no earlier bucket has room for it; otherwise first-fit puts it into one
      of them. */
  lemma {:induction false} PlacedAlikeExactlyWhen(buckets: seq<seq<File>>, f: File, capacity: nat) returns (i: nat)
    requires buckets != []
    ensures OnlyLastHasRoom(buckets, f, capacity) ==>
            PlaceFirst(buckets, f, capacity) == PlaceNext(buckets, f, capacity)
    ensures !OnlyLastHasRoom(buckets, f, capacity) ==>
              i < |buckets| - 1 && PlaceFirst(buckets, f, capacity)[i] == buckets[i] + [f]
  {
    i := 0;
    if |buckets| == 1 {
      assert buckets[1..] == [];
    } else if !HasRoom(buckets[0], f, capacity) {
      var j := PlacedAlikeExactlyWhen(buckets[1..], f, capacity);
      i := j + 1;
    }
  }

  /** First-fit never takes a file out of a bucket. */
  lemma {:induction false} FirstFitGrows(files: seq<File>, k: nat, capacity: nat)
    requires k <= |files|
    ensures var early, all := FirstFit(files[..k], capacity), FirstFit(files, capacity);
            |early| <= |all| && forall i | 0 <= i < |early| :: early[i] <= all[i]
  {
    if k == |files| {
      assert files[..k] == files;
    } else {
      var front := files[..|files| - 1];
      assert front[..k] == files[..k];
      FirstFitGrows(front, k, capacity);
    }
  }

  /** Next-fit leaves closed buckets alone. */
  lemma ClosedStays(files: seq<File>, k: nat, i: nat, capacity: nat)
    requires k <= |files| && i < |Pack(files[..k], capacity)| - 1
    ensures i < |Pack(files, capacity)| && Pack(files, capacity)[i] == Pack(files[..k], capacity)[i]
  {
    assert files == files[..k] + files[k..];
    PackAppend([], files[..k], files[k..], capacity);
  }

  /** When file `k` is placed, only the last bucket has room for it. */
  predicate NoEarlierRoom(files: seq<File>, k: nat, capacity: nat)
    requires k < |files|
  {
    OnlyLastHasRoom(Pack(files[..k], capacity), files[k], capacity)
  }

  predicate NoneHasEarlierRoom(files: seq<File>, n: nat, capacity: nat)
    requires n <= |files|
  {
    forall k | 0 <= k < n :: NoEarlierRoom(files, k, capacity)
  }

  lemma FirstFitSnoc(files: seq<File>, k: nat, capacity: nat)
    requires k < |files|
    ensures files[..k + 1] == files[..k] + [files[k]]
    ensures FirstFit(files[..k + 1], capacity) == PlaceFirst(FirstFit(files[..k], capacity), files[k], capacity)
  {
    assert files[..k + 1][..k] == files[..k];
  }

  lemma {:induction false} NextFitIsFirstFit(files: seq<File>, n: nat, capacity: nat)
    requires n <= |files| && NoneHasEarlierRoom(files, n, capacity)
    ensures Pack(files[..n], capacity) == FirstFit(files[..n], capacity)
  {
    if n == 0 {
    } else {
      var k := n - 1;
      NextFitIsFirstFit(files, k, capacity);
      assert NoEarlierRoom(files, k, capacity);
      PackSnoc(files[..k], files[k], capacity);
      FirstFitSnoc(files, k, capacity);
      var i := PlacedAlikeExactlyWhen(Pack(files[..k], capacity), files[k], capacity);
    }
  }

  /** First-fit has a longer bucket than next-fit, from the first file on that has room in an earlier one. */
  lemma EarlierRoomTellsApart(files: seq<File>, k: nat, capacity: nat) returns (i: nat)
    requires k < |files| && !NoEarlierRoom(files, k, capacity) && NoneHasEarlierRoom(files, k, capacity)
    ensures i < |Pack(files, capacity)| && i < |FirstFit(files, capacity)|
    ensures |Pack(files, capacity)[i]| < |FirstFit(files, capacity)[i]|
  {
    var p := Pack(files[..k], capacity);
    NextFitIsFirstFit(files, k, capacity);
    FirstFitSnoc(files, k, capacity);
    i := PlacedAlikeExactlyWhen(p, files[k], capacity);
    FirstFitGrows(files, k + 1, capacity);
    ClosedStays(files, k, i, capacity);
    assert FirstFit(files[..k + 1], capacity)[i] == p[i] + [files[k]];
  }

  /** The first position at which some earlier bucket has room, if there is one. */
  lemma {:induction false} FirstEarlierRoom(files: seq<File>, n: nat, capacity: nat) returns (k: nat)
    requires n <= |files| && !NoneHasEarlierRoom(files, n, capacity)
    ensures k < n && !NoEarlierRoom(files, k, capacity) && NoneHasEarlierRoom(files, k, capacity)
  {
    if NoneHasEarlierRoom(files, n - 1, capacity) {
      k := n - 1;
    } else {
      k := FirstEarlierRoom(files, n - 1, capacity);
    }
  }

  lemma NextFitIsFirstFitExactlyWhen(files: seq<File>, capacity: nat)
    ensures Pack(files, capacity) == FirstFit(files, capacity) <==> NoneHasEarlierRoom(files, |files|, capacity)
  {
    if NoneHasEarlierRoom(files, |files|, capacity) {
      NextFitIsFirstFit(files, |files|, capacity);
      assert files[..|files|] == files;
    } else {
      var k := FirstEarlierRoom(files, |files|, capacity);
      var i := EarlierRoomTellsApart(files, k, capacity);
    }
  }

  /** Room in an earlier bucket, spelled out. */
  lemma {:induction false} OnlyLastHasRoomMeaning(buckets: seq<seq<File>>, f: File, capacity: nat)
    ensures OnlyLastHasRoom(buckets, f, capacity) <==>
            forall i | 0 <= i < |buckets| - 1 :: !HasRoom(buckets[i], f, capacity)
  {
    if |buckets| <= 1 {
    } else {
      OnlyLastHasRoomMeaning(buckets[1..], f, capacity);
      forall i | 0 <= i < |buckets| - 1 ensures i > 0 ==> buckets[i] == buckets[1..][i - 1] {}
      if forall i | 0 <= i < |buckets| - 1 :: !HasRoom(buckets[i], f, capacity) {
        forall i | 0 <= i < |buckets[1..]| - 1 ensures !HasRoom(buckets[1..][i], f, capacity) {
          assert !HasRoom(buckets[i + 1], f, capacity);
        }
      }
    }
  }

  /** The packing is the documented first-fit exactly when no bucket but the last has room for file `k` as
      the files before it are packed, for any `k`. */
  lemma FirstFitExactlyWhen(files: seq<File>, capacity: nat)
    ensures Pack(files, capacity) == FirstFit(files, capacity) <==>
            forall k | 0 <= k < |files| ::
              var buckets := Pack(files[..k], capacity);
              forall i | 0 <= i < |buckets| - 1 :: !HasRoom(buckets[i], files[k], capacity)
  {
    NextFitIsFirstFitExactlyWhen(files, capacity);
    forall k | 0 <= k < |files|
      ensures NoEarlierRoom(files, k, capacity) <==>
              var buckets := Pack(files[..k], capacity);
              forall i | 0 <= i < |buckets| - 1 :: !HasRoom(buckets[i], files[k], capacity)
    {
      OnlyLastHasRoomMeaning(Pack(files[..k], capacity), files[k], capacity);
    }
  }

  lemma AlternatingLeavesRoom(capacity: nat)
    requires capacity >= 2
    ensures !NoEarlierRoom(Alternating(3, capacity), 2, capacity)
  {
    var files := Alternating(3, capacity);
    AlternatingPacks(2, capacity);
    assert files[..2] == Alternating(2, capacity);
    var p := Pack(files[..2], capacity);
    assert Size(p[0]) == 1 by {
      assert p[0] == [files[0]] && files[0] == File(Letters(0), Zeros(1));
    }
    assert |p| == 2 && HasRoom(p[0], files[2], capacity);
  }

  /** Rule files on which the two differ: a small one, one as large as a ConfigMap, and a small one. */
  lemma NotFirstFit() returns (ruleFiles: map<string, Content>, files: seq<File>)
    ensures IsListing(ruleFiles, files) && !Oversized(ruleFiles, MAX_CONFIG_MAP_DATA_SIZE)
    ensures Pack(files, MAX_CONFIG_MAP_DATA_SIZE) != FirstFit(files, MAX_CONFIG_MAP_DATA_SIZE)
  {
    var capacity := MAX_CONFIG_MAP_DATA_SIZE;
    files := Alternating(3, capacity);
    ruleFiles := AsBucket(files);
    AlternatingListing(3, capacity);
    AlternatingEntries(ruleFiles, 3, capacity);
    AlternatingFitsSingly(3, capacity, ruleFiles);
    AlternatingLeavesRoom(capacity);
    NextFitIsFirstFitExactlyWhen(files, capacity);
  }

  // ---------------------------------------------------------------- agreement below a name

  /** The two rule-file maps have the same files below `n`. */
  ghost predicate SameBelow(m: map<string, Content>, m': map<string, Content>, n: string) {
    forall f: File | Before(f.name, n) :: Stored(m, f) <==> Stored(m', f)
  }

  /** The leading files named before `n`. */
  function Below(files: seq<File>, n: string): seq<File> {
    if files == [] || !Before(files[0].name, n) then [] else [files[0]] + Below(files[1..], n)
  }

  lemma SplitCons<T>(s: seq<T>, front: seq<T>)
    requires s != [] && front <= s[1..]
    ensures [s[0]] + front <= s
    ensures s[|front| + 1..] == s[1..][|front|..]
    ensures s == ([s[0]] + front) + s[|front| + 1..]
  {
  }

  lemma NoneBelow(files: seq<File>, n: string)
    requires StrictlySorted(files, NamedBefore)
    requires files != [] ==> !Before(files[0].name, n)
    ensures forall f | f in files :: !Before(f.name, n)
  {
    forall i | 0 <= i < |files| ensures !Before(files[i].name, n) {
      if i > 0 && Before(files[i].name, n) {
        assert NamedBefore(files[0], files[i]);
        BeforeTransitive(files[0].name, files[i].name, n);
      }
    }
  }

  lemma {:induction false} BelowSplits(files: seq<File>, n: string)
    requires StrictlySorted(files, NamedBefore)
    ensures var early := Below(files, n);
            && early <= files && files == early + files[|early|..]
            && (forall f | f in early :: Before(f.name, n))
            && (forall f | f in files[|early|..] :: !Before(f.name, n))
  {
    if files != [] && Before(files[0].name, n) {
      BelowSplits(files[1..], n);
      SplitCons(files, Below(files[1..], n));
    } else {
      NoneBelow(files, n);
      assert files[0..] == files;
    }
  }

  lemma BelowComplete(files: seq<File>, n: string, f: File)
    requires StrictlySorted(files, NamedBefore) && f in files && Before(f.name, n)
    ensures f in Below(files, n)
  {
    BelowSplits(files, n);
    assert f in Below(files, n) + files[|Below(files, n)|..];
  }

  /** Listings of maps that agree below `n` start with the same files below `n`. */
  lemma CommonPrefix(m: map<string, Content>, files: seq<File>, m': map<string, Content>, files': seq<File>, n: string)
    requires IsListing(m, files) && IsListing(m', files')
    requires SameBelow(m, m', n)
    ensures Below(files, n) == Below(files', n)
  {
    var early, early' := Below(files, n), Below(files', n);
    BelowSplits(files, n);
    BelowSplits(files', n);
    forall f ensures f in early <==> f in early' {
      assert f in files <==> Stored(m, f);
      assert f in files' <==> Stored(m', f);
      if f in early {
        BelowComplete(files', n, f);
      }
      if f in early' {
        BelowComplete(files, n, f);
      }
    }
    NamedBeforeIsOrder(early);
    StrictlySortedUnique(early, early', NamedBefore);
  }

  ghost predicate NoneBelowAfter(b: seq<Bucket>, n: string, open: nat) {
    forall i, k | open < i < |b| && k in b[i] :: !Before(k, n)
  }

  /** Two packings agree up to a bucket that is open when `n` is reached: the buckets before it are
      equal, it holds the same files below `n`, and the later ones hold none. */
  ghost predicate AgreeBelow(b: seq<Bucket>, b': seq<Bucket>, n: string, open: nat) {
    && open < |b| && open < |b'|
    && b[..open] == b'[..open]
    && SameBelow(b[open], b'[open], n)
    && NoneBelowAfter(b, n, open)
    && NoneBelowAfter(b', n, open)
  }

  /** Of the files below `n` the bucket holds exactly those among `files`. */
  ghost predicate HoldsBelow(bucket: Bucket, files: seq<File>, n: string) {
    forall f: File | Before(f.name, n) :: Stored(bucket, f) <==> f in files
  }

  /** `b` consists of the buckets that `p` describes, as far as the files below `n` are concerned. */
  ghost predicate SplitsAt(b: seq<Bucket>, p: seq<seq<File>>, n: string, open: nat) {
    && open + 1 == |p| && open < |b|
    && b[..open] == MapSeq(AsBucket, p[..open])
    && HoldsBelow(b[open], p[open], n)
    && NoneBelowAfter(b, n, open)
  }

  lemma SplitsAgree(b: seq<Bucket>, b': seq<Bucket>, p: seq<seq<File>>, n: string, open: nat)
    requires SplitsAt(b, p, n, open) && SplitsAt(b', p, n, open)
    ensures AgreeBelow(b, b', n, open)
  {
  }

  lemma PackSplits(files: seq<File>, early: seq<File>, n: string, capacity: nat)
    requires StrictlySorted(files, NamedBefore) && early == Below(files, n)
    ensures |early| <= |files| && forall f | f in files[|early|..] :: !Before(f.name, n)
    ensures var p := Pack(early, capacity);
            Pack(files, capacity) == p[..|p| - 1] + PackFrom(p[|p| - 1], files[|early|..], capacity)
  {
    BelowSplits(files, n);
    PackAppend([], early, files[|early|..], capacity);
  }

  /** What packing `late` after `p` comes to. */
  ghost predicate Continues(b: seq<Bucket>, files: seq<File>, p: seq<seq<File>>, late: seq<File>, n: string,
                            capacity: nat) {
    && b == Buckets(files, capacity) && StrictlySorted(files, NamedBefore) && p != []
    && (forall f | f in late :: !Before(f.name, n))
    && Pack(files, capacity) == p[..|p| - 1] + PackFrom(p[|p| - 1], late, capacity)
  }

  lemma MapSeqAppend<A, B>(f: A -> B, s: seq<A>, t: seq<A>)
    ensures MapSeq(f, s + t)[..|s|] == MapSeq(f, s)
  {
  }

  lemma SplitBefore(b: seq<Bucket>, files: seq<File>, p: seq<seq<File>>, late: seq<File>, n: string, capacity: nat)
    requires Continues(b, files, p, late, n, capacity)
    ensures |b| >= |p| && b[..|p| - 1] == MapSeq(AsBucket, p[..|p| - 1])
  {
    MapSeqAppend(AsBucket, p[..|p| - 1], PackFrom(p[|p| - 1], late, capacity));
  }

  /** Buckets after the open one hold only files placed later. */
  lemma {:induction false} LaterBuckets(open: seq<File>, late: seq<File>, capacity: nat, i: nat, f: File)
    requires 0 < i < |PackFrom(open, late, capacity)| && f in PackFrom(open, late, capacity)[i]
    ensures f in late
    decreases |late|
  {
    if Size(open) + |late[0].content| > capacity {
      if i > 1 {
        LaterBuckets([late[0]], late[1..], capacity, i - 1, f);
      } else {
        OpenGrows([late[0]], late[1..], capacity);
      }
    } else {
      LaterBuckets(open + [late[0]], late[1..], capacity, i, f);
    }
  }

  lemma SplitLater(files: seq<File>, p: seq<seq<File>>, late: seq<File>, n: string, capacity: nat, i: nat, f: File)
    requires StrictlySorted(files, NamedBefore) && p != [] && forall f | f in late :: !Before(f.name, n)
    requires Pack(files, capacity) == p[..|p| - 1] + PackFrom(p[|p| - 1], late, capacity)
    requires |p| <= i < |Buckets(files, capacity)| && Stored(Buckets(files, capacity)[i], f)
    ensures !Before(f.name, n)
  {
    var open := |p| - 1;
    PackedHolds(files, capacity, i);
    assert Pack(files, capacity)[i] == PackFrom(p[open], late, capacity)[i - open];
    LaterBuckets(p[open], late, capacity, i - open, f);
  }

  lemma SplitAfter(b: seq<Bucket>, files: seq<File>, p: seq<seq<File>>, late: seq<File>, n: string, capacity: nat)
    requires Continues(b, files, p, late, n, capacity)
    ensures NoneBelowAfter(b, n, |p| - 1)
  {
    forall i, k | |p| - 1 < i < |b| && k in b[i] ensures !Before(k, n) {
      SplitLater(files, p, late, n, capacity, i, File(k, b[i][k]));
    }
  }

  lemma GrownMembers(open: seq<File>, grown: seq<File>, late: seq<File>, f: File)
    requires open <= grown <= open + late && f !in late
    ensures f in grown <==> f in open
  {
  }

  lemma SplitOpen(b: seq<Bucket>, files: seq<File>, p: seq<seq<File>>, late: seq<File>, n: string, capacity: nat)
    requires Continues(b, files, p, late, n, capacity) && |p| <= |b|
    ensures HoldsBelow(b[|p| - 1], p[|p| - 1], n)
  {
    var open := |p| - 1;
    var grown := PackFrom(p[open], late, capacity)[0];
    PackedHolds(files, capacity, open);
    OpenGrows(p[open], late, capacity);
    forall f: File | Before(f.name, n) ensures Stored(b[open], f) <==> f in p[open] {
      assert Stored(b[open], f) <==> f in grown;
      GrownMembers(p[open], grown, late, f);
    }
  }

  lemma SplitAll(b: seq<Bucket>, files: seq<File>, p: seq<seq<File>>, late: seq<File>, n: string, capacity: nat)
    requires Continues(b, files, p, late, n, capacity)
    ensures SplitsAt(b, p, n, |p| - 1)
  {
    SplitBefore(b, files, p, late, n, capacity);
    SplitOpen(b, files, p, late, n, capacity);
    SplitAfter(b, files, p, late, n, capacity);
  }

  /** Where packing stands when `n` is reached. */
  lemma SplitAt(files: seq<File>, early: seq<File>, n: string, capacity: nat)
    requires StrictlySorted(files, NamedBefore) && early == Below(files, n)
    ensures var p := Pack(early, capacity);
            SplitsAt(Buckets(files, capacity), p, n, |p| - 1)
  {
    PackSplits(files, early, n, capacity);
    SplitAll(Buckets(files, capacity), files, Pack(early, capacity), files[|early|..], n, capacity);
  }

  /** Prefix stability: whatever changes from `n` onward, the ConfigMaps closed before `n` stay as they are. */
  lemma PrefixStable(m: map<string, Content>, files: seq<File>, m': map<string, Content>, files': seq<File>, n: string,
                     capacity: nat)
    returns (open: nat)
    requires IsListing(m, files) && IsListing(m', files')
    requires SameBelow(m, m', n)
    ensures AgreeBelow(Buckets(files, capacity), Buckets(files', capacity), n, open)
  {
    CommonPrefix(m, files, m', files', n);
    var p := Pack(Below(files, n), capacity);
    open := |p| - 1;
    SplitAt(files, Below(files, n), n, capacity);
    SplitAt(files', Below(files, n), n, capacity);
    SplitsAgree(Buckets(files, capacity), Buckets(files', capacity), p, n, open);
  }
}
