/**
 * The two-phase variant (find_dupes_merge_maps/main.go).
 *
 * Phase one: each worker probes the paths it dequeues and buckets the
 * descriptors by size in a private map; the reducer concatenates the
 * workers' maps key by key. Phase two: every bucket with at least two
 * descriptors is hashed, and each descriptor whose digest succeeds is
 * appended under its digest.
 *
 * Goroutines and channels are replaced by sequences: `workerTasks[w]` is
 * what worker `w` dequeued, in order, and the workers' maps are reduced in
 * the order of `workerTasks`. Go map iteration is modelled by choosing any
 * remaining key, so every result below holds for every iteration order.
 */
module MergeMaps {
  import opened Results
  import opened MultiMap
  import opened FileSystem
  import opened Walk
  import opened Report

  /** A file seen by the size phase: its path, `ModTime().Unix()` and `Size()`. */
  datatype FileDesc = FileDesc(path: Path, mtime: int, size: nat)

  /** `generateFileDesc`: one metadata probe; on failure the zero descriptor and the error. */
  function GenerateFileDesc(env: Env, path: Path): (r: (FileDesc, Option<string>))
    ensures r.1 == None <==> env.stat(path).Ok?
    ensures env.stat(path).Ok? ==> r.0 == FileDesc(path, env.stat(path).value.mtime, env.stat(path).value.size)
    ensures env.stat(path).Err? ==> r == (FileDesc("", 0, 0), Some(env.stat(path).msg))
  {
    match env.stat(path)
    case Err(m) => (FileDesc("", 0, 0), Some(m))
    case Ok(info) => (FileDesc(path, info.mtime, info.size), None)
  }

  /** `d` is what probing its own path yields. */
  predicate Probed(env: Env, d: FileDesc)
  {
    GenerateFileDesc(env, d.path) == (d, None)
  }

  /** The descriptors the probes of `paths` yield, in order; a failed probe yields none. */
  function Described(env: Env, paths: seq<Path>): seq<FileDesc>
  {
    if paths == [] then []
    else
      var (d, err) := GenerateFileDesc(env, paths[|paths| - 1]);
      Described(env, paths[..|paths| - 1]) + (if err == None then [d] else [])
  }

  /** The descriptors of size `s`, in order. */
  function OfSize(ds: seq<FileDesc>, s: nat): seq<FileDesc>
  {
    if ds == [] then []
    else OfSize(ds[..|ds| - 1], s) + (if ds[|ds| - 1].size == s then [ds[|ds| - 1]] else [])
  }

  /**
   * A descriptor occurs among those of `paths` exactly as often as its path
   * occurs in `paths`, if probing that path yields it, and never otherwise.
   */
  lemma {:induction false} DescribedCount(env: Env, paths: seq<Path>, d: FileDesc)
    ensures multiset(Described(env, paths))[d] == if Probed(env, d) then multiset(paths)[d.path] else 0
  {
    if paths != [] {
      var n := |paths| - 1;
      var prefix, p := paths[..n], paths[n];
      var before := Described(env, prefix);
      DescribedCount(env, prefix, d);
      assert paths == prefix + [p];
      assert multiset(paths)[d.path] == multiset(prefix)[d.path] + if p == d.path then 1 else 0;
      if env.stat(p).Ok? {
        assert Described(env, paths) == before + [GenerateFileDesc(env, p).0];
        assert multiset(before + [GenerateFileDesc(env, p).0]) == multiset(before) + multiset{GenerateFileDesc(env, p).0};
      } else {
        assert Described(env, paths) == before + [];
        assert before + [] == before;
      }
    }
  }

  /** The bucket of size `s` holds every descriptor of that size, as often as it occurs, and nothing else. */
  lemma {:induction false} OfSizeCount(ds: seq<FileDesc>, s: nat, d: FileDesc)
    ensures multiset(OfSize(ds, s))[d] == if d.size == s then multiset(ds)[d] else 0
  {
    if ds != [] {
      var n := |ds| - 1;
      var prefix, e := ds[..n], ds[n];
      var before := OfSize(prefix, s);
      OfSizeCount(prefix, s, d);
      assert ds == prefix + [e];
      assert multiset(ds) == multiset(prefix) + multiset{e};
      if e.size == s {
        assert OfSize(ds, s) == before + [e];
        assert multiset(before + [e]) == multiset(before) + multiset{e};
      } else {
        assert OfSize(ds, s) == before + [];
        assert before + [] == before;
      }
    }
  }

  lemma DescribedSnoc(env: Env, paths: seq<Path>, p: Path)
    ensures Described(env, paths + [p]) ==
              Described(env, paths) + (if GenerateFileDesc(env, p).1 == None then [GenerateFileDesc(env, p).0] else [])
  {
    assert (paths + [p])[..|paths|] == paths;
  }

  lemma OfSizeSnoc(ds: seq<FileDesc>, d: FileDesc, s: nat)
    ensures OfSize(ds + [d], s) == OfSize(ds, s) + (if d.size == s then [d] else [])
  {
    assert (ds + [d])[..|ds|] == ds;
  }

  lemma {:induction false} DescribedAppend(env: Env, a: seq<Path>, b: seq<Path>)
    ensures Described(env, a + b) == Described(env, a) + Described(env, b)
    decreases |b|
  {
    if b == [] {
      assert a + b == a;
    } else {
      var n := |b| - 1;
      assert (a + b)[..|a + b| - 1] == a + b[..n];
      assert (a + b)[|a + b| - 1] == b[n];
      DescribedAppend(env, a, b[..n]);
    }
  }

  lemma {:induction false} OfSizeAppend(a: seq<FileDesc>, b: seq<FileDesc>, s: nat)
    ensures OfSize(a + b, s) == OfSize(a, s) + OfSize(b, s)
    decreases |b|
  {
    if b == [] {
      assert a + b == a;
    } else {
      var n := |b| - 1;
      assert (a + b)[..|a + b| - 1] == a + b[..n];
      assert (a + b)[|a + b| - 1] == b[n];
      OfSizeAppend(a, b[..n], s);
    }
  }

  /**
   * One worker of `processFiles`: for every path it dequeues, in order, a
   * successful probe appends the descriptor under its size; a failed probe
   * is skipped. Afterwards the bucket of size `s` holds exactly the probed
   * descriptors of size `s` in dequeue order, and no bucket is empty.
   */
  method ProcessFiles(env: Env, taskQueue: seq<Path>) returns (filesBySize: map<nat, seq<FileDesc>>)
    ensures forall s :: Get(filesBySize, s) == OfSize(Described(env, taskQueue), s)
    ensures forall s :: s in filesBySize ==> filesBySize[s] != []
  {
    filesBySize := map[];
    for i := 0 to |taskQueue|
      invariant forall s :: Get(filesBySize, s) == OfSize(Described(env, taskQueue[..i]), s)
      invariant forall s :: s in filesBySize ==> filesBySize[s] != []
    {
      assert taskQueue[..i + 1] == taskQueue[..i] + [taskQueue[i]];
      DescribedSnoc(env, taskQueue[..i], taskQueue[i]);
      var (fileDesc, err) := GenerateFileDesc(env, taskQueue[i]);
      if err != None {
        assert Described(env, taskQueue[..i + 1]) == Described(env, taskQueue[..i]) + [];
        assert Described(env, taskQueue[..i]) + [] == Described(env, taskQueue[..i]);
        continue;
      }
      forall s ensures OfSize(Described(env, taskQueue[..i + 1]), s) == Get(filesBySize, s) + (if fileDesc.size == s then [fileDesc] else []) {
        OfSizeSnoc(Described(env, taskQueue[..i]), fileDesc, s);
      }
      AppendAtGet(filesBySize, fileDesc.size, [fileDesc]);
      filesBySize := AppendAt(filesBySize, fileDesc.size, [fileDesc]);
    }
    assert taskQueue[..|taskQueue|] == taskQueue;
  }

  /** The lists under key `k` of the workers' maps, concatenated in the order the maps are received. */
  function ConcatAt(partials: seq<map<nat, seq<FileDesc>>>, k: nat): seq<FileDesc>
  {
    if partials == [] then []
    else ConcatAt(partials[..|partials| - 1], k) + Get(partials[|partials| - 1], k)
  }

  /** Every key of the workers' maps. */
  function KeysOf(partials: seq<map<nat, seq<FileDesc>>>): set<nat>
  {
    if partials == [] then {} else KeysOf(partials[..|partials| - 1]) + partials[|partials| - 1].Keys
  }

  /** Every descriptor of the workers' maps, with multiplicity. */
  ghost function FlatAll(partials: seq<map<nat, seq<FileDesc>>>): multiset<FileDesc>
  {
    if partials == [] then multiset{} else FlatAll(partials[..|partials| - 1]) + Flat(partials[|partials| - 1])
  }

  /**
   * The inner reduce loop of `findDupes` for one worker's map: for each of
   * its keys, in any order, `filesBySize[k] = append(filesBySize[k], v...)`.
   * Every key's list grows by the worker's list under that key, the keys
   * become those of either map, and the contents become the sum of both.
   */
  method MergeWorker(filesBySize: map<nat, seq<FileDesc>>, workerFilesBySize: map<nat, seq<FileDesc>>)
    returns (merged: map<nat, seq<FileDesc>>)
    ensures forall k :: Get(merged, k) == Get(filesBySize, k) + Get(workerFilesBySize, k)
    ensures merged.Keys == filesBySize.Keys + workerFilesBySize.Keys
    ensures Flat(merged) == Flat(filesBySize) + Flat(workerFilesBySize)
  {
    merged := filesBySize;
    var pending := workerFilesBySize.Keys;
    MergeStart(filesBySize, workerFilesBySize);
    while pending != {}
      invariant MergedExcept(filesBySize, workerFilesBySize, merged, pending)
      decreases pending
    {
      var k :| k in pending;
      MergeStep(filesBySize, workerFilesBySize, merged, pending, k);
      merged := AppendAt(merged, k, workerFilesBySize[k]);
      pending := pending - {k};
    }
    MergeEnd(filesBySize, workerFilesBySize, merged);
  }

  /** `merged` is `filesBySize` with the worker's lists under every key not in `pending` appended. */
  ghost predicate MergedExcept(filesBySize: map<nat, seq<FileDesc>>, worker: map<nat, seq<FileDesc>>,
                               merged: map<nat, seq<FileDesc>>, pending: set<nat>)
  {
    && pending <= worker.Keys
    && (forall k :: Get(merged, k) == Get(filesBySize, k) + (if k in pending then [] else Get(worker, k)))
    && merged.Keys == filesBySize.Keys + (worker.Keys - pending)
    && Flat(merged) == Flat(filesBySize) + Flat(worker - pending)
  }

  lemma MergeStart(filesBySize: map<nat, seq<FileDesc>>, worker: map<nat, seq<FileDesc>>)
    ensures MergedExcept(filesBySize, worker, filesBySize, worker.Keys)
  {
    assert worker - worker.Keys == map[];
    forall k ensures Get(filesBySize, k) == Get(filesBySize, k) + (if k in worker.Keys then [] else Get(worker, k)) {
      assert Get(filesBySize, k) + [] == Get(filesBySize, k);
    }
  }

  lemma MergeEnd(filesBySize: map<nat, seq<FileDesc>>, worker: map<nat, seq<FileDesc>>, merged: map<nat, seq<FileDesc>>)
    requires MergedExcept(filesBySize, worker, merged, {})
    ensures forall k :: Get(merged, k) == Get(filesBySize, k) + Get(worker, k)
    ensures merged.Keys == filesBySize.Keys + worker.Keys
    ensures Flat(merged) == Flat(filesBySize) + Flat(worker)
  {
    assert worker - {} == worker;
  }

  /** One step of `MergeWorker`: appending the worker's list under `k` moves `k` from pending to done. */
  lemma MergeStep(filesBySize: map<nat, seq<FileDesc>>, worker: map<nat, seq<FileDesc>>,
                  merged: map<nat, seq<FileDesc>>, pending: set<nat>, k: nat)
    requires MergedExcept(filesBySize, worker, merged, pending) && k in pending
    ensures MergedExcept(filesBySize, worker, AppendAt(merged, k, worker[k]), pending - {k})
  {
    MergeStepFlat(worker, merged, pending, k);
    MergeStepKeys(filesBySize, worker, merged, pending, k);
    MergeStepGet(filesBySize, worker, merged, pending, k);
  }

  lemma MergeStepKeys(filesBySize: map<nat, seq<FileDesc>>, worker: map<nat, seq<FileDesc>>,
                      merged: map<nat, seq<FileDesc>>, pending: set<nat>, k: nat)
    requires k in pending && k in worker
    requires merged.Keys == filesBySize.Keys + (worker.Keys - pending)
    ensures AppendAt(merged, k, worker[k]).Keys == filesBySize.Keys + (worker.Keys - (pending - {k}))
  {
  }

  lemma MergeStepFlat(worker: map<nat, seq<FileDesc>>, merged: map<nat, seq<FileDesc>>, pending: set<nat>, k: nat)
    requires pending <= worker.Keys && k in pending
    ensures Flat(AppendAt(merged, k, worker[k])) == Flat(merged) + multiset(worker[k])
    ensures Flat(worker - (pending - {k})) == Flat(worker - pending) + multiset(worker[k])
  {
    var v := worker[k];
    FlatAppendAt(merged, k, v);
    FlatAppendAt(worker - pending, k, v);
    var added, rest := AppendAt(worker - pending, k, v), worker - (pending - {k});
    assert added.Keys == rest.Keys;
    assert forall j :: j in added ==> added[j] == rest[j];
    assert added == rest;
  }

  lemma MergeStepGet(filesBySize: map<nat, seq<FileDesc>>, worker: map<nat, seq<FileDesc>>,
                     merged: map<nat, seq<FileDesc>>, pending: set<nat>, k: nat)
    requires k in pending && k in worker
    requires forall j :: Get(merged, j) == Get(filesBySize, j) + (if j in pending then [] else Get(worker, j))
    ensures forall j :: Get(AppendAt(merged, k, worker[k]), j) ==
              Get(filesBySize, j) + (if j in pending - {k} then [] else Get(worker, j))
  {
    var next := AppendAt(merged, k, worker[k]);
    AppendAtGet(merged, k, worker[k]);
    forall j ensures Get(next, j) == Get(filesBySize, j) + (if j in pending - {k} then [] else Get(worker, j)) {
      if j == k {
        assert Get(merged, k) == Get(filesBySize, k) + [];
        assert Get(filesBySize, k) + [] == Get(filesBySize, k);
      }
    }
  }

  /**
   * The reduce loop of `findDupes`: the workers' maps are merged in the
   * order received. Afterwards every key's list is the concatenation of the
   * workers' lists under that key in that order, the keys are those of all
   * the workers' maps, and the result holds exactly the workers'
   * descriptors, so its entry count is the sum of theirs.
   */
  method Reduce(partials: seq<map<nat, seq<FileDesc>>>) returns (filesBySize: map<nat, seq<FileDesc>>)
    ensures forall k :: Get(filesBySize, k) == ConcatAt(partials, k)
    ensures filesBySize.Keys == KeysOf(partials)
    ensures Flat(filesBySize) == FlatAll(partials)
  {
    filesBySize := map[];
    for i := 0 to |partials|
      invariant forall k :: Get(filesBySize, k) == ConcatAt(partials[..i], k)
      invariant filesBySize.Keys == KeysOf(partials[..i])
      invariant Flat(filesBySize) == FlatAll(partials[..i])
    {
      assert partials[..i + 1][..i] == partials[..i];
      filesBySize := MergeWorker(filesBySize, partials[i]);
    }
    assert partials[..|partials|] == partials;
  }

  /** The buckets that survive pruning: those with at least two descriptors. */
  function Candidates(filesBySize: map<nat, seq<FileDesc>>): map<nat, seq<FileDesc>>
  {
    map k | k in filesBySize && |filesBySize[k]| >= 2 :: filesBySize[k]
  }

  /** What `getMD5` computes for a path: the digest of every byte read up to EOF, or the open or read error. */
  function Md5(env: Env, path: Path): Result<string>
  {
    match ReadFile(env, path)
    case Err(m) => Err(m)
    case Ok(b) => Ok(env.md5(b))
  }

  /**
   * `getMD5`: an open error or a non-EOF read error gives `""` and the
   * error; otherwise the digest of all bytes read up to EOF and no error.
   */
  method GetMD5(env: Env, path: Path) returns (hash: string, err: Option<string>)
    ensures Md5(env, path).Ok? ==> err == None && hash == Md5(env, path).value
    ensures Md5(env, path).Err? ==> err == Some(Md5(env, path).msg) && hash == ""
  {
    var file := env.open(path);
    if file.Err? {
      return "", Some(file.msg);
    }
    hash, err := HashStream(file.value.calls, env.md5);
  }

  /** `getMD5` as a function of the path. */
  function Digests(env: Env): Path -> Result<string>
  {
    p => Md5(env, p)
  }

  /**
   * `m` is `base` with every descriptor of `ds` whose digest (by `digest`)
   * succeeds appended under that digest: counted per digest and descriptor.
   */
  ghost predicate HashedInto(digest: Path -> Result<string>, base: map<string, seq<FileDesc>>, ds: multiset<FileDesc>,
                             m: map<string, seq<FileDesc>>)
  {
    forall h, d :: multiset(Get(m, h))[d] == multiset(Get(base, h))[d] + if digest(d.path) == Ok(h) then ds[d] else 0
  }

  /** Appending a descriptor under its digest extends what has been hashed into the map by that descriptor. */
  lemma HashedIntoAppend(digest: Path -> Result<string>, base: map<string, seq<FileDesc>>, ds: multiset<FileDesc>,
                         m: map<string, seq<FileDesc>>, e: FileDesc)
    requires HashedInto(digest, base, ds, m) && digest(e.path).Ok?
    ensures HashedInto(digest, base, ds + multiset{e}, AppendAt(m, digest(e.path).value, [e]))
  {
    var hash := digest(e.path).value;
    var next := AppendAt(m, hash, [e]);
    forall h, d ensures multiset(Get(next, h))[d] ==
                        multiset(Get(base, h))[d] + if digest(d.path) == Ok(h) then (ds + multiset{e})[d] else 0
    {
      assert multiset(Get(m, h))[d] == multiset(Get(base, h))[d] + if digest(d.path) == Ok(h) then ds[d] else 0;
      HashedIntoAppendOne(digest, base, ds, m, e, h, d);
    }
  }

  /** `HashedIntoAppend` for one digest and one descriptor. */
  lemma HashedIntoAppendOne(digest: Path -> Result<string>, base: map<string, seq<FileDesc>>, ds: multiset<FileDesc>,
                            m: map<string, seq<FileDesc>>, e: FileDesc, h: string, d: FileDesc)
    requires digest(e.path).Ok?
    requires multiset(Get(m, h))[d] == multiset(Get(base, h))[d] + if digest(d.path) == Ok(h) then ds[d] else 0
    ensures multiset(Get(AppendAt(m, digest(e.path).value, [e]), h))[d] ==
              multiset(Get(base, h))[d] + if digest(d.path) == Ok(h) then (ds + multiset{e})[d] else 0
  {
    AppendOneCount(m, digest(e.path).value, e, h, d);
    assert (ds + multiset{e})[d] == ds[d] + if d == e then 1 else 0;
  }

  /** A descriptor whose digest fails leaves the map as it is. */
  lemma HashedIntoSkip(digest: Path -> Result<string>, base: map<string, seq<FileDesc>>, ds: multiset<FileDesc>,
                       m: map<string, seq<FileDesc>>, e: FileDesc)
    requires HashedInto(digest, base, ds, m) && digest(e.path).Err?
    ensures HashedInto(digest, base, ds + multiset{e}, m)
  {
    forall h, d ensures multiset(Get(m, h))[d] ==
                        multiset(Get(base, h))[d] + if digest(d.path) == Ok(h) then (ds + multiset{e})[d] else 0
    {
      if d == e {
        assert digest(d.path) != Ok(h);
      }
    }
  }

  /** Nothing hashed in yet. */
  lemma HashedIntoNone(digest: Path -> Result<string>, base: map<string, seq<FileDesc>>)
    ensures HashedInto(digest, base, multiset{}, base)
  {
  }

  /**
   * The inner loop of the hashing stage over one surviving bucket: every
   * descriptor is passed to `getMD5` once, in order (`calls` records each
   * call as it is made), and appended under its digest when that succeeds;
   * a failure skips only that descriptor.
   */
  method HashBucket(env: Env, fileDescs: seq<FileDesc>, filesByHash: map<string, seq<FileDesc>>)
    returns (extended: map<string, seq<FileDesc>>, ghost calls: seq<FileDesc>)
    ensures calls == fileDescs
    ensures HashedInto(Digests(env), filesByHash, multiset(fileDescs), extended)
    ensures (forall h :: h in filesByHash ==> filesByHash[h] != []) ==> forall h :: h in extended ==> extended[h] != []
  {
    extended := filesByHash;
    calls := [];
    HashedIntoNone(Digests(env), filesByHash);
    for i := 0 to |fileDescs|
      invariant calls == fileDescs[..i]
      invariant HashedInto(Digests(env), filesByHash, multiset(fileDescs[..i]), extended)
      invariant (forall h :: h in filesByHash ==> filesByHash[h] != []) ==> forall h :: h in extended ==> extended[h] != []
    {
      var e := fileDescs[i];
      assert multiset(fileDescs[..i + 1]) == multiset(fileDescs[..i]) + multiset{e} by {
        assert fileDescs[..i + 1] == fileDescs[..i] + [e];
      }
      var hash, err := GetMD5(env, e.path);
      calls := calls + [e];
      if err != None {
        HashedIntoSkip(Digests(env), filesByHash, multiset(fileDescs[..i]), extended, e);
        continue;
      }
      HashedIntoAppend(Digests(env), filesByHash, multiset(fileDescs[..i]), extended, e);
      extended := AppendAt(extended, hash, [e]);
    }
    assert fileDescs[..|fileDescs|] == fileDescs;
  }

  /** Moving one bucket from pending to done adds it to the survivors exactly when it has two or more entries. */
  lemma CandidatesStep(filesBySize: map<nat, seq<FileDesc>>, pending: set<nat>, size: nat)
    requires size in pending && pending <= filesBySize.Keys
    ensures var before, after := Candidates(filesBySize - pending), Candidates(filesBySize - (pending - {size}));
            Flat(after) == Flat(before) + if |filesBySize[size]| >= 2 then multiset(filesBySize[size]) else multiset{}
  {
    var before, after := Candidates(filesBySize - pending), Candidates(filesBySize - (pending - {size}));
    if |filesBySize[size]| >= 2 {
      var added := AppendAt(before, size, filesBySize[size]);
      assert size !in before;
      assert added.Keys == after.Keys;
      assert forall j :: j in added ==> added[j] == after[j];
      assert added == after;
      FlatAppendAt(before, size, filesBySize[size]);
    } else {
      assert after == before;
    }
  }

  /** Hashing `xs` into `a` and then `ys` into the result is hashing both into `a`. */
  lemma HashedIntoTrans(digest: Path -> Result<string>, a: map<string, seq<FileDesc>>, xs: multiset<FileDesc>, b: map<string, seq<FileDesc>>,
                        ys: multiset<FileDesc>, c: map<string, seq<FileDesc>>)
    requires HashedInto(digest, a, xs, b) && HashedInto(digest, b, ys, c)
    ensures HashedInto(digest, a, xs + ys, c)
  {
  }

  /**
   * The pruning and hashing loop of `findDupes`. `hashed` records the
   * descriptors passed to `getMD5`: exactly those of the buckets with at
   * least two entries, each once. A descriptor sits under digest `h` as
   * often as it occurs in those buckets if its digest is `h`, and never
   * otherwise; a failed digest omits only that descriptor. No list of the
   * result is empty.
   */
  method HashCandidates(env: Env, filesBySize: map<nat, seq<FileDesc>>)
    returns (filesByHash: map<string, seq<FileDesc>>, ghost hashed: seq<FileDesc>)
    ensures multiset(hashed) == Flat(Candidates(filesBySize))
    ensures HashedInto(Digests(env), map[], Flat(Candidates(filesBySize)), filesByHash)
    ensures forall h :: h in filesByHash ==> filesByHash[h] != []
  {
    filesByHash := map[];
    hashed := [];
    var pending := filesBySize.Keys;
    assert Candidates(filesBySize - pending) == map[];
    HashedIntoNone(Digests(env), map[]);
    while pending != {}
      invariant pending <= filesBySize.Keys
      invariant multiset(hashed) == Flat(Candidates(filesBySize - pending))
      invariant HashedInto(Digests(env), map[], multiset(hashed), filesByHash)
      invariant forall h :: h in filesByHash ==> filesByHash[h] != []
      decreases pending
    {
      var size :| size in pending;
      var fileDescs := filesBySize[size];
      CandidatesStep(filesBySize, pending, size);
      pending := pending - {size};
      if |fileDescs| < 2 {
        continue;
      }
      var next, bucketCalls := HashBucket(env, fileDescs, filesByHash);
      HashedIntoTrans(Digests(env), map[], multiset(hashed), filesByHash, multiset(fileDescs), next);
      filesByHash := next;
      hashed := hashed + bucketCalls;
    }
    assert filesBySize - {} == filesBySize;
  }

  /** The buckets of the reduced map are those of all the workers' descriptors together, in worker order. */
  lemma {:induction false} ReducedBuckets(env: Env, workerTasks: seq<seq<Path>>, partials: seq<map<nat, seq<FileDesc>>>, s: nat)
    requires |partials| == |workerTasks|
    requires forall j, k :: 0 <= j < |partials| ==> Get(partials[j], k) == OfSize(Described(env, workerTasks[j]), k)
    ensures ConcatAt(partials, s) == OfSize(Described(env, Flatten(workerTasks)), s)
  {
    if partials != [] {
      var n := |partials| - 1;
      ReducedBuckets(env, workerTasks[..n], partials[..n], s);
      DescribedAppend(env, Flatten(workerTasks[..n]), workerTasks[n]);
      OfSizeAppend(Described(env, Flatten(workerTasks[..n])), Described(env, workerTasks[n]), s);
    }
  }

  /**
   * How many descriptors of size `s` the probes of a queue yield depends only
   * on which paths are queued, not on their order: every descriptor of that
   * size occurs as often as its path is queued.
   */
  lemma BucketCount(env: Env, paths: seq<Path>, s: nat, d: FileDesc)
    ensures multiset(OfSize(Described(env, paths), s))[d] ==
              if d.size == s && Probed(env, d) then multiset(paths)[d.path] else 0
  {
    OfSizeCount(Described(env, paths), s, d);
    DescribedCount(env, paths, d);
  }

  /** Queues with the same paths, in any order, yield buckets of the same sizes. */
  lemma BucketSizeInvariant(env: Env, a: seq<Path>, b: seq<Path>, s: nat)
    requires multiset(a) == multiset(b)
    ensures |OfSize(Described(env, a), s)| == |OfSize(Described(env, b), s)|
  {
    var ma, mb := multiset(OfSize(Described(env, a), s)), multiset(OfSize(Described(env, b), s));
    forall d ensures ma[d] == mb[d] {
      BucketCount(env, a, s, d);
      BucketCount(env, b, s, d);
    }
    assert ma == mb;
  }

  /** Every descriptor of the bucket of size `s` has size `s`. */
  lemma OfSizeSized(ds: seq<FileDesc>, s: nat, e: FileDesc)
    requires e in OfSize(ds, s)
    ensures e.size == s
  {
    OfSizeCount(ds, s, e);
  }

  /**
   * Surviving buckets, counted: a descriptor occurs in the buckets of two or
   * more entries as often as its path is queued, when it is what probing that
   * path yields and its bucket has two or more entries, and never otherwise.
   */
  lemma CandidateCount(env: Env, queue: seq<Path>, filesBySize: map<nat, seq<FileDesc>>, d: FileDesc)
    requires forall s :: Get(filesBySize, s) == OfSize(Described(env, queue), s)
    ensures Flat(Candidates(filesBySize))[d] ==
              if Probed(env, d) && |OfSize(Described(env, queue), d.size)| >= 2 then multiset(queue)[d.path] else 0
  {
    var c := Candidates(filesBySize);
    CandidatesKeyed(env, queue, filesBySize);
    FlatKeyed(c, (e: FileDesc) => e.size, d);
    BucketCount(env, queue, d.size, d);
    CandidatesGet(filesBySize, d.size);
  }

  /** Every surviving descriptor sits under its own size. */
  lemma CandidatesKeyed(env: Env, queue: seq<Path>, filesBySize: map<nat, seq<FileDesc>>)
    requires forall s :: Get(filesBySize, s) == OfSize(Described(env, queue), s)
    ensures forall k, e :: k in Candidates(filesBySize) && e in Candidates(filesBySize)[k] ==> e.size == k
  {
    var c := Candidates(filesBySize);
    forall k: nat, e: FileDesc | k in c && e in c[k] ensures e.size == k {
      assert Get(filesBySize, k) == c[k];
      OfSizeSized(Described(env, queue), k, e);
    }
  }

  /** Pruning keeps a bucket whole when it has two or more entries and drops it otherwise. */
  lemma CandidatesGet(filesBySize: map<nat, seq<FileDesc>>, s: nat)
    ensures Get(Candidates(filesBySize), s) == if |Get(filesBySize, s)| >= 2 then Get(filesBySize, s) else []
  {
  }

  /**
   * What `findDupes` returns, counted per digest and descriptor: `d` is
   * listed under `h` as often as its path was queued, exactly when `d` is
   * what probing its path yields, its size bucket over the whole queue has
   * at least two entries, and `getMD5` of its path returns `h`; otherwise
   * it is not listed under `h` at all.
   */
  ghost predicate MergeOutcome(env: Env, queue: seq<Path>, filesByHash: map<string, seq<FileDesc>>)
  {
    forall h, d :: multiset(Get(filesByHash, h))[d] ==
      if Probed(env, d) && |OfSize(Described(env, queue), d.size)| >= 2 && Md5(env, d.path) == Ok(h)
      then multiset(queue)[d.path] else 0
  }

  /** The descriptors passed to `getMD5`: those whose size bucket has at least two entries, once per queued occurrence. */
  ghost predicate HashedExactly(env: Env, queue: seq<Path>, hashed: seq<FileDesc>)
  {
    forall d :: multiset(hashed)[d] ==
      if Probed(env, d) && |OfSize(Described(env, queue), d.size)| >= 2 then multiset(queue)[d.path] else 0
  }

  /**
   * `findDupes` with the goroutines replaced by sequences: the walk queues
   * `TaskQueue(visits)`, worker `w` dequeues `workerTasks[w]` (together the
   * workers dequeue every queued path once, in any split and order), the
   * reducer receives the workers' maps in the order of `workerTasks`, and the
   * surviving buckets are hashed. `hashed` records the `getMD5` calls.
   */
  method FindDupes(env: Env, visits: seq<Visit>, workerTasks: seq<seq<Path>>)
    returns (filesByHash: map<string, seq<FileDesc>>, ghost hashed: seq<FileDesc>)
    requires multiset(Flatten(workerTasks)) == multiset(TaskQueue(visits))
    ensures MergeOutcome(env, TaskQueue(visits), filesByHash)
    ensures HashedExactly(env, TaskQueue(visits), hashed)
    ensures forall h :: h in filesByHash ==> filesByHash[h] != []
  {
    var partials := RunWorkers(env, workerTasks);
    var filesBySize := Reduce(partials);
    ReducedAll(env, workerTasks, partials, filesBySize);
    filesByHash, hashed := HashCandidates(env, filesBySize);
    FindDupesOutcome(env, TaskQueue(visits), Flatten(workerTasks), filesBySize, filesByHash, hashed);
  }

  /**
   * The workers of `findDupes`: worker `w` runs `processFiles` over
   * `workerTasks[w]` and sends its map, and the maps are received in the
   * order of `workerTasks`.
   */
  method RunWorkers(env: Env, workerTasks: seq<seq<Path>>) returns (partials: seq<map<nat, seq<FileDesc>>>)
    ensures |partials| == |workerTasks|
    ensures forall j, k :: 0 <= j < |partials| ==> Get(partials[j], k) == OfSize(Described(env, workerTasks[j]), k)
  {
    partials := [];
    for w := 0 to |workerTasks|
      invariant |partials| == w
      invariant forall j, k :: 0 <= j < w ==> Get(partials[j], k) == OfSize(Described(env, workerTasks[j]), k)
    {
      var workerFilesBySize := ProcessFiles(env, workerTasks[w]);
      partials := partials + [workerFilesBySize];
    }
  }

  /** The reduced map files the descriptors of all the workers' queues together by size. */
  lemma ReducedAll(env: Env, workerTasks: seq<seq<Path>>, partials: seq<map<nat, seq<FileDesc>>>,
                   filesBySize: map<nat, seq<FileDesc>>)
    requires |partials| == |workerTasks|
    requires forall j, k :: 0 <= j < |partials| ==> Get(partials[j], k) == OfSize(Described(env, workerTasks[j]), k)
    requires forall k :: Get(filesBySize, k) == ConcatAt(partials, k)
    ensures forall s :: Get(filesBySize, s) == OfSize(Described(env, Flatten(workerTasks)), s)
  {
    forall s ensures Get(filesBySize, s) == OfSize(Described(env, Flatten(workerTasks)), s) {
      ReducedBuckets(env, workerTasks, partials, s);
    }
  }

  lemma FindDupesOutcome(env: Env, target: seq<Path>, queue: seq<Path>, filesBySize: map<nat, seq<FileDesc>>,
                         filesByHash: map<string, seq<FileDesc>>, hashed: seq<FileDesc>)
    requires multiset(queue) == multiset(target)
    requires forall s :: Get(filesBySize, s) == OfSize(Described(env, queue), s)
    requires multiset(hashed) == Flat(Candidates(filesBySize))
    requires HashedInto(Digests(env), map[], Flat(Candidates(filesBySize)), filesByHash)
    ensures MergeOutcome(env, target, filesByHash)
    ensures HashedExactly(env, target, hashed)
  {
    CandidatesOver(env, target, queue, filesBySize);
    OutcomeFromCounts(env, target, Flat(Candidates(filesBySize)), filesByHash);
  }

  /** The surviving descriptors, counted over `target`. */
  lemma CandidatesOver(env: Env, target: seq<Path>, queue: seq<Path>, filesBySize: map<nat, seq<FileDesc>>)
    requires multiset(queue) == multiset(target)
    requires forall s :: Get(filesBySize, s) == OfSize(Described(env, queue), s)
    ensures forall d :: Flat(Candidates(filesBySize))[d] ==
              if Probed(env, d) && |OfSize(Described(env, target), d.size)| >= 2 then multiset(target)[d.path] else 0
  {
    forall d ensures Flat(Candidates(filesBySize))[d] ==
                       if Probed(env, d) && |OfSize(Described(env, target), d.size)| >= 2 then multiset(target)[d.path] else 0 {
      CandidateCountOver(env, target, queue, filesBySize, d);
    }
  }

  /** Hashing exactly the surviving descriptors into an empty map gives the outcome of `findDupes`. */
  lemma OutcomeFromCounts(env: Env, target: seq<Path>, c: multiset<FileDesc>, filesByHash: map<string, seq<FileDesc>>)
    requires forall d :: c[d] == if Probed(env, d) && |OfSize(Described(env, target), d.size)| >= 2 then multiset(target)[d.path] else 0
    requires HashedInto(Digests(env), map[], c, filesByHash)
    ensures MergeOutcome(env, target, filesByHash)
  {
    HashedIntoEmpty(Digests(env), c, filesByHash);
    forall h, d ensures multiset(Get(filesByHash, h))[d] ==
      if Probed(env, d) && |OfSize(Described(env, target), d.size)| >= 2 && Md5(env, d.path) == Ok(h)
      then multiset(target)[d.path] else 0
    {
      assert multiset(Get(filesByHash, h))[d] == if Digests(env)(d.path) == Ok(h) then c[d] else 0;
    }
  }

  /** Hashed into the empty map: each descriptor is listed under its digest exactly as often as it was hashed. */
  lemma HashedIntoEmpty(digest: Path -> Result<string>, c: multiset<FileDesc>, m: map<string, seq<FileDesc>>)
    requires HashedInto(digest, map[], c, m)
    ensures forall h, d :: multiset(Get(m, h))[d] == if digest(d.path) == Ok(h) then c[d] else 0
  {
    forall h, d ensures multiset(Get(m, h))[d] == if digest(d.path) == Ok(h) then c[d] else 0 {
      assert multiset(Get(m, h))[d] == multiset(Get(map[], h))[d] + if digest(d.path) == Ok(h) then c[d] else 0;
      assert multiset(Get(map[], h))[d] == 0;
    }
  }

  /** `CandidateCount`, restated over any queue holding the same paths. */
  lemma CandidateCountOver(env: Env, target: seq<Path>, queue: seq<Path>, filesBySize: map<nat, seq<FileDesc>>, d: FileDesc)
    requires multiset(queue) == multiset(target)
    requires forall s :: Get(filesBySize, s) == OfSize(Described(env, queue), s)
    ensures Flat(Candidates(filesBySize))[d] ==
              if Probed(env, d) && |OfSize(Described(env, target), d.size)| >= 2 then multiset(target)[d.path] else 0
  {
    CandidateCount(env, queue, filesBySize, d);
    BucketSizeInvariant(env, queue, target, d.size);
  }

  /** The descriptor probing `p` yields when its stat succeeds. */
  function StatDesc(env: Env, p: Path): (d: FileDesc)
    requires env.stat(p).Ok?
    ensures Probed(env, d) && d.path == p
  {
    FileDesc(p, env.stat(p).value.mtime, env.stat(p).value.size)
  }

  /**
   * Soundness of the grouping: a descriptor listed under `h` is what probing
   * its path yields, `getMD5` of that path returns `h`, its size bucket has
   * at least two entries, and its path was visited by the walk as an
   * accessible regular file whose base name is not excluded.
   */
  lemma MergeSound(env: Env, visits: seq<Visit>, filesByHash: map<string, seq<FileDesc>>, h: string, d: FileDesc)
    requires MergeOutcome(env, TaskQueue(visits), filesByHash)
    requires h in filesByHash && d in filesByHash[h]
    ensures Probed(env, d) && Md5(env, d.path) == Ok(h)
    ensures d.path in TaskQueue(visits)
    ensures |OfSize(Described(env, TaskQueue(visits)), d.size)| >= 2
    ensures exists i :: 0 <= i < |visits| && visits[i].path == d.path && Admitted(visits[i])
  {
    assert multiset(Get(filesByHash, h))[d] > 0;
    TaskQueueHas(visits, d.path);
  }

  /**
   * Completeness of the grouping: two different queued paths whose stats
   * succeed with the same size and whose digests are both `h` are both
   * listed under `h`, each with the descriptor its probe yields.
   */
  lemma MergeComplete(env: Env, visits: seq<Visit>, filesByHash: map<string, seq<FileDesc>>, p: Path, q: Path, h: string)
    requires MergeOutcome(env, TaskQueue(visits), filesByHash)
    requires p != q && p in TaskQueue(visits) && q in TaskQueue(visits)
    requires env.stat(p).Ok? && env.stat(q).Ok? && env.stat(p).value.size == env.stat(q).value.size
    requires Md5(env, p) == Ok(h) && Md5(env, q) == Ok(h)
    ensures h in filesByHash && StatDesc(env, p) in filesByHash[h] && StatDesc(env, q) in filesByHash[h]
  {
    SameSizeListed(env, TaskQueue(visits), filesByHash, p, q);
    SameSizeListed(env, TaskQueue(visits), filesByHash, q, p);
  }

  /**
   * A tree holding two files of the same size with different digests yields
   * a map that is not empty, yet has no group of two: each file sits alone
   * under its own digest.
   */
  lemma SameSizeDifferentContentMap(env: Env, queue: seq<Path>, filesByHash: map<string, seq<FileDesc>>, p: Path, q: Path)
    requires MergeOutcome(env, queue, filesByHash)
    requires queue == [p, q] && p != q
    requires env.stat(p).Ok? && env.stat(q).Ok? && env.stat(p).value.size == env.stat(q).value.size
    requires Md5(env, p).Ok? && Md5(env, q).Ok? && Md5(env, p) != Md5(env, q)
    ensures filesByHash != map[]
    ensures forall h :: h in filesByHash ==> |filesByHash[h]| < 2
  {
    SameSizeListed(env, queue, filesByHash, p, q);
    assert forall i, j :: 0 <= i < j < |queue| ==> queue[i] != queue[j] && Md5(env, queue[i]) != Md5(env, queue[j]);
    forall h | h in filesByHash ensures |filesByHash[h]| < 2 {
      ListedOnce(env, queue, filesByHash, h);
    }
  }

  /** Two queued files of the same size share a bucket of two, so the first is hashed and listed. */
  lemma SameSizeListed(env: Env, queue: seq<Path>, filesByHash: map<string, seq<FileDesc>>, p: Path, q: Path)
    requires MergeOutcome(env, queue, filesByHash)
    requires p in queue && q in queue && p != q
    requires env.stat(p).Ok? && env.stat(q).Ok? && env.stat(p).value.size == env.stat(q).value.size
    requires Md5(env, p).Ok?
    ensures Md5(env, p).value in filesByHash && StatDesc(env, p) in filesByHash[Md5(env, p).value]
  {
    var dp, dq := StatDesc(env, p), StatDesc(env, q);
    BucketCount(env, queue, dp.size, dp);
    BucketCount(env, queue, dp.size, dq);
    TwoDistinct(OfSize(Described(env, queue), dp.size), dp, dq);
    assert multiset(Get(filesByHash, Md5(env, p).value))[dp] > 0;
  }

  /** What listing `d` under `h` says about `d`, for a map with the outcome of `findDupes` on `queue`. */
  lemma ListedFacts(env: Env, queue: seq<Path>, filesByHash: map<string, seq<FileDesc>>, h: string, d: FileDesc)
    requires MergeOutcome(env, queue, filesByHash)
    requires h in filesByHash && d in filesByHash[h]
    ensures Probed(env, d) && Md5(env, d.path) == Ok(h) && d.path in queue
    ensures multiset(filesByHash[h])[d] == multiset(queue)[d.path]
  {
    assert multiset(Get(filesByHash, h))[d] > 0;
  }

  /** When no path is queued twice and no two queued paths share a digest, every list has at most one entry. */
  lemma ListedOnce(env: Env, queue: seq<Path>, filesByHash: map<string, seq<FileDesc>>, h: string)
    requires MergeOutcome(env, queue, filesByHash)
    requires forall i, j :: 0 <= i < j < |queue| ==> queue[i] != queue[j] && Md5(env, queue[i]) != Md5(env, queue[j])
    requires h in filesByHash
    ensures |filesByHash[h]| < 2
  {
    if filesByHash[h] != [] {
      var e := filesByHash[h][0];
      ListedFacts(env, queue, filesByHash, h, e);
      forall d | d in filesByHash[h] ensures d == e {
        ListedFacts(env, queue, filesByHash, h, d);
        var i :| 0 <= i < |queue| && queue[i] == d.path;
        var j :| 0 <= j < |queue| && queue[j] == e.path;
        assert i == j;
      }
      DistinctCount(queue, e.path);
      AtMostOne(filesByHash[h], e);
    }
  }

  /**
   * `printDupes` as written, on such a tree, prints the "Duplicates:" header
   * with no group under it.
   */
  lemma SameSizeDifferentContentClaimsDupes(env: Env, visits: seq<Visit>, filesByHash: map<string, seq<FileDesc>>,
                                            p: Path, q: Path, out: Printed<FileDesc>)
    requires MergeOutcome(env, TaskQueue(visits), filesByHash)
    requires TaskQueue(visits) == [p, q] && p != q
    requires env.stat(p).Ok? && env.stat(q).Ok? && env.stat(p).value.size == env.stat(q).value.size
    requires Md5(env, p).Ok? && Md5(env, q).Ok? && Md5(env, p) != Md5(env, q)
    requires IsReportOf(filesByHash, out)
    ensures out == Dupes([])
  {
    SameSizeDifferentContentMap(env, TaskQueue(visits), filesByHash, p, q);
    HeaderWithoutGroups(filesByHash, out);
  }

  /** The intended message for the same tree is "No dupes found." */
  lemma SameSizeDifferentContentNoDupes(env: Env, visits: seq<Visit>, filesByHash: map<string, seq<FileDesc>>,
                                        p: Path, q: Path, out: Printed<FileDesc>)
    requires MergeOutcome(env, TaskQueue(visits), filesByHash)
    requires TaskQueue(visits) == [p, q] && p != q
    requires env.stat(p).Ok? && env.stat(q).Ok? && env.stat(p).value.size == env.stat(q).value.size
    requires Md5(env, p).Ok? && Md5(env, q).Ok? && Md5(env, p) != Md5(env, q)
    requires IsIntendedReportOf(filesByHash, out)
    ensures out == NoDupes
  {
    SameSizeDifferentContentMap(env, TaskQueue(visits), filesByHash, p, q);
  }

  /**
   * `printDupes` with the message test corrected: finds the duplicates,
   * then prints "No dupes found." exactly when no digest has two or more
   * descriptors, and otherwise the header and every such group.
   */
  method FindAndReport(env: Env, visits: seq<Visit>, workerTasks: seq<seq<Path>>)
    returns (filesByHash: map<string, seq<FileDesc>>, out: Printed<FileDesc>)
    requires multiset(Flatten(workerTasks)) == multiset(TaskQueue(visits))
    ensures MergeOutcome(env, TaskQueue(visits), filesByHash)
    ensures IsIntendedReportOf(filesByHash, out)
  {
    ghost var hashed;
    filesByHash, hashed := FindDupes(env, visits, workerTasks);
    out := PrintDupesIntended(filesByHash);
  }
}
