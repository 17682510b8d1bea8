/**
 * The one-phase variant (shared_map/find_dupes_shared_map.go).
 *
 * Every queued file is read and hashed; each successful descriptor is
 * appended, under the mutex, to one map from digest to descriptors that all
 * workers share. The map is an object (`HashIndex`) passed to every worker;
 * the section the mutex guards is its `Add` method.
 *
 * Goroutines are replaced by a schedule: worker `w` dequeues `queues[w]`,
 * and `sched[j]` is the worker whose next iteration runs as the `j`-th one.
 * Appends under the mutex are atomic, so a schedule of whole iterations
 * covers every interleaving of the appends.
 */
module SharedMap {
  import opened Results
  import opened MultiMap
  import opened FileSystem
  import opened Walk
  import opened Report

  /** A hashed file: its path, `ModTime().Unix()` (0 when the stat failed) and MD5 hex digest. */
  datatype FileDesc = FileDesc(path: Path, mtime: int, hash: string)

  /** The zero descriptor `FileDesc{}` returned with an error. */
  const NoDesc := FileDesc("", 0, "")

  /**
   * What `generateFileDesc` yields for a path: an open error or a non-EOF
   * read error fails the call; otherwise the digest of the bytes read up to
   * EOF, with the modification time of the open file's stat, or 0 when that
   * stat fails.
   */
  function Describe(env: Env, path: Path): (r: Result<FileDesc>)
    ensures r.Ok? <==> ReadFile(env, path).Ok?
    ensures r.Err? ==> r.msg == ReadFile(env, path).msg
    ensures r.Ok? ==> r.value.path == path && r.value.hash == env.md5(ReadFile(env, path).value)
    ensures r.Ok? ==> var stat := env.open(path).value.stat;
                      r.value.mtime == if stat.Ok? then stat.value.mtime else 0
  {
    match env.open(path)
    case Err(m) => Err(m)
    case Ok(file) =>
      match ReadToEOF(file.calls)
      case Err(m) => Err(m)
      case Ok(bytes) =>
        var mtime := if file.stat.Ok? then file.stat.value.mtime else 0;
        Ok(FileDesc(path, mtime, env.md5(bytes)))
  }

  /**
   * `generateFileDesc`: opens the file, runs the chunk loop over it, then
   * stats the open file. Failure gives the zero descriptor and the error,
   * never a partial digest; a failed stat only zeroes the modification time.
   */
  method GenerateFileDesc(env: Env, path: Path) returns (d: FileDesc, err: Option<string>)
    ensures Describe(env, path).Ok? ==> err == None && d == Describe(env, path).value
    ensures Describe(env, path).Err? ==> err == Some(Describe(env, path).msg) && d == NoDesc
  {
    var file := env.open(path);
    if file.Err? {
      return NoDesc, Some(file.msg);
    }
    var hash, readErr := HashStream(file.value.calls, env.md5);
    if readErr != None {
      return NoDesc, readErr;
    }
    var mtime: int;
    var fileInfo := file.value.stat;
    if fileInfo.Err? {
      mtime := 0;
    } else {
      mtime := fileInfo.value.mtime;
    }
    d, err := FileDesc(path, mtime, hash), None;
  }

  /**
   * A descriptor whose stat failed still carries its digest: the only thing
   * a failed stat of the open file changes is the modification time.
   */
  lemma StatFailureKeepsHash(env: Env, path: Path)
    requires env.open(path).Ok? && env.open(path).value.stat.Err?
    requires ReadToEOF(env.open(path).value.calls).Ok?
    ensures Describe(env, path) == Ok(FileDesc(path, 0, env.md5(ReadToEOF(env.open(path).value.calls).value)))
  {
  }

  /** The map shared by all workers, `filesByHash`. */
  class HashIndex {
    var filesByHash: map<string, seq<FileDesc>>

    /** `make(map[string][]FileDesc)` */
    constructor ()
      ensures filesByHash == map[]
    {
      filesByHash := map[];
    }

    /** The section under the mutex: `filesByHash[d.hash] = append(filesByHash[d.hash], d)`. */
    method Add(d: FileDesc)
      modifies this
      ensures filesByHash == AppendAt(old(filesByHash), d.hash, [d])
    {
      filesByHash := AppendAt(filesByHash, d.hash, [d]);
    }
  }

  /** `generateFileDesc` as a function of the path. */
  function Descriptors(env: Env): Path -> Result<FileDesc>
  {
    p => Describe(env, p)
  }

  /** Every descriptor `describe` yields is for the path it was asked about, as with `generateFileDesc`. */
  ghost predicate KeepsPath(describe: Path -> Result<FileDesc>)
  {
    forall p :: describe(p).Ok? ==> describe(p).value.path == p
  }

  /** The descriptors `describe` yields for `paths`, in order; a failed call yields none. */
  function Described(describe: Path -> Result<FileDesc>, paths: seq<Path>): seq<FileDesc>
  {
    if paths == [] then []
    else
      var r := describe(paths[|paths| - 1]);
      Described(describe, paths[..|paths| - 1]) + (if r.Ok? then [r.value] else [])
  }

  /** `m` after appending each of `ds`, in order, under its digest. */
  function InsertAll(m: map<string, seq<FileDesc>>, ds: seq<FileDesc>): map<string, seq<FileDesc>>
  {
    if ds == [] then m
    else
      var last := ds[|ds| - 1];
      AppendAt(InsertAll(m, ds[..|ds| - 1]), last.hash, [last])
  }

  lemma DescribedSnoc(describe: Path -> Result<FileDesc>, paths: seq<Path>, p: Path)
    ensures Described(describe, paths + [p]) ==
              Described(describe, paths) + (if describe(p).Ok? then [describe(p).value] else [])
  {
    assert (paths + [p])[..|paths|] == paths;
  }

  lemma InsertAllSnoc(m: map<string, seq<FileDesc>>, ds: seq<FileDesc>, d: FileDesc)
    ensures InsertAll(m, ds + [d]) == AppendAt(InsertAll(m, ds), d.hash, [d])
  {
    assert (ds + [d])[..|ds|] == ds;
  }

  /**
   * A descriptor occurs among those of `paths` exactly as often as its path
   * occurs in `paths`, if `generateFileDesc` of that path yields it, and never otherwise.
   */
  lemma {:induction false} DescribedCount(describe: Path -> Result<FileDesc>, paths: seq<Path>, d: FileDesc)
    requires KeepsPath(describe)
    ensures multiset(Described(describe, paths))[d] == if describe(d.path) == Ok(d) then multiset(paths)[d.path] else 0
  {
    if paths != [] {
      var n := |paths| - 1;
      var prefix, p := paths[..n], paths[n];
      var before := Described(describe, prefix);
      DescribedCount(describe, prefix, d);
      assert paths == prefix + [p];
      assert multiset(paths)[d.path] == multiset(prefix)[d.path] + if p == d.path then 1 else 0;
      if describe(p).Ok? {
        assert Described(describe, paths) == before + [describe(p).value];
        assert multiset(before + [describe(p).value]) == multiset(before) + multiset{describe(p).value};
      } else {
        assert Described(describe, paths) == before + [];
        assert before + [] == before;
      }
    }
  }

  /**
   * No entry is lost and none is duplicated: after the appends, `d` occurs
   * under `h` as often as before plus, when its digest is `h`, as often as
   * it was appended.
   */
  lemma {:induction false} InsertAllCount(m: map<string, seq<FileDesc>>, ds: seq<FileDesc>, h: string, d: FileDesc)
    ensures multiset(Get(InsertAll(m, ds), h))[d] == multiset(Get(m, h))[d] + if d.hash == h then multiset(ds)[d] else 0
  {
    if ds != [] {
      var n := |ds| - 1;
      var prefix, e := ds[..n], ds[n];
      assert ds == prefix + [e];
      InsertAllCount(m, prefix, h, d);
      InsertOneCount(m, prefix, e, InsertAll(m, prefix), InsertAll(m, ds), h, d);
    }
  }

  /** The step of `InsertAllCount`: one more append, on the maps before and after it. */
  lemma InsertOneCount(m: map<string, seq<FileDesc>>, prefix: seq<FileDesc>, e: FileDesc,
                       before: map<string, seq<FileDesc>>, after: map<string, seq<FileDesc>>, h: string, d: FileDesc)
    requires after == AppendAt(before, e.hash, [e])
    requires multiset(Get(before, h))[d] == multiset(Get(m, h))[d] + if d.hash == h then multiset(prefix)[d] else 0
    ensures multiset(Get(after, h))[d] == multiset(Get(m, h))[d] + if d.hash == h then multiset(prefix + [e])[d] else 0
  {
    AppendOneCount(before, e.hash, e, h, d);
    assert multiset(prefix + [e]) == multiset(prefix) + multiset{e};
  }

  /** A digest is a key after the appends exactly when it was one before or some appended descriptor carries it. */
  lemma {:induction false} InsertAllKeys(m: map<string, seq<FileDesc>>, ds: seq<FileDesc>, h: string)
    ensures h in InsertAll(m, ds) <==> h in m || exists d :: d in ds && d.hash == h
  {
    if ds != [] {
      var n := |ds| - 1;
      InsertAllKeys(m, ds[..n], h);
      assert ds == ds[..n] + [ds[n]];
      if d :| d in ds && d.hash == h && d != ds[n] {
        assert d in ds[..n];
      }
    }
  }

  /**
   * The order of the appends does not matter: appending the same
   * descriptors in any two orders gives maps with the same keys and, under
   * every key, the same descriptors with the same multiplicities.
   */
  lemma InsertAllOrderIndependent(m: map<string, seq<FileDesc>>, a: seq<FileDesc>, b: seq<FileDesc>)
    requires multiset(a) == multiset(b)
    ensures InsertAll(m, a).Keys == InsertAll(m, b).Keys
    ensures forall h :: multiset(Get(InsertAll(m, a), h)) == multiset(Get(InsertAll(m, b), h))
  {
    forall h ensures multiset(Get(InsertAll(m, a), h)) == multiset(Get(InsertAll(m, b), h)) {
      forall d ensures multiset(Get(InsertAll(m, a), h))[d] == multiset(Get(InsertAll(m, b), h))[d] {
        InsertAllCount(m, a, h, d);
        InsertAllCount(m, b, h, d);
      }
    }
    forall h ensures h in InsertAll(m, a) <==> h in InsertAll(m, b) {
      InsertAllKeys(m, a, h);
      InsertAllKeys(m, b, h);
      if d :| d in a && d.hash == h {
        assert d in multiset(b);
      }
      if d :| d in b && d.hash == h {
        assert d in multiset(a);
      }
    }
  }

  /** Appending never leaves an empty list behind. */
  lemma {:induction false} InsertAllNonEmpty(m: map<string, seq<FileDesc>>, ds: seq<FileDesc>)
    requires forall h :: h in m ==> m[h] != []
    ensures forall h :: h in InsertAll(m, ds) ==> InsertAll(m, ds)[h] != []
  {
    if ds != [] {
      InsertAllNonEmpty(m, ds[..|ds| - 1]);
    }
  }

  /**
   * One iteration of the worker loop of `processFiles`: a failed
   * `generateFileDesc` is skipped; otherwise exactly one descriptor is
   * appended under its digest and every other list is unchanged.
   */
  method ProcessFile(env: Env, filename: Path, index: HashIndex)
    modifies index
    ensures index.filesByHash == InsertAll(old(index.filesByHash), Described(Descriptors(env), [filename]))
  {
    assert [filename][..0] == [];
    var fileDesc, err := GenerateFileDesc(env, filename);
    if err != None {
      return;
    }
    index.Add(fileDesc);
  }

  /**
   * `processFiles` for one worker running alone: its dequeued paths are
   * processed in order, so the map ends up with the successful descriptors
   * appended in that order.
   */
  method ProcessFiles(env: Env, taskQueue: seq<Path>, index: HashIndex)
    modifies index
    ensures index.filesByHash == InsertAll(old(index.filesByHash), Described(Descriptors(env), taskQueue))
  {
    for i := 0 to |taskQueue|
      invariant index.filesByHash == InsertAll(old(index.filesByHash), Described(Descriptors(env), taskQueue[..i]))
    {
      assert taskQueue[..i + 1] == taskQueue[..i] + [taskQueue[i]];
      DescribedSnoc(Descriptors(env), taskQueue[..i], taskQueue[i]);
      ghost var before := index.filesByHash;
      ProcessFile(env, taskQueue[i], index);
      ProcessFileStep(Descriptors(env), old(index.filesByHash), taskQueue[..i], taskQueue[i], before, index.filesByHash);
    }
    assert taskQueue[..|taskQueue|] == taskQueue;
  }

  /** Processing one more path extends the appended descriptors by that path's descriptor. */
  lemma ProcessFileStep(describe: Path -> Result<FileDesc>, base: map<string, seq<FileDesc>>, done: seq<Path>, p: Path,
                        before: map<string, seq<FileDesc>>, after: map<string, seq<FileDesc>>)
    requires before == InsertAll(base, Described(describe, done))
    requires after == InsertAll(before, Described(describe, [p]))
    ensures after == InsertAll(base, Described(describe, done + [p]))
  {
    DescribedSnoc(describe, done, p);
    DescribedSnoc(describe, [], p);
    assert [] + [p] == [p];
    if describe(p).Ok? {
      InsertAllSnoc(base, Described(describe, done), describe(p).value);
    } else {
      assert Described(describe, done + [p]) == Described(describe, done) + [];
      assert Described(describe, done) + [] == Described(describe, done);
    }
  }

  /** A schedule that runs every dequeued path of every worker exactly once. */
  predicate ValidSchedule(queues: seq<seq<Path>>, sched: seq<nat>)
  {
    && (forall j :: 0 <= j < |sched| ==> sched[j] < |queues|)
    && (forall w :: 0 <= w < |queues| ==> multiset(sched)[w] == |queues[w]|)
  }

  /**
   * After the first `j` steps of `sched`: `rest[w]` is what worker `w` has
   * still to process, and `order` together with what remains are exactly
   * the dequeued paths.
   */
  ghost predicate Progress(queues: seq<seq<Path>>, sched: seq<nat>, j: nat, rest: seq<seq<Path>>, order: seq<Path>)
  {
    && j <= |sched|
    && |rest| == |queues|
    && (forall w :: 0 <= w < |queues| ==> |rest[w]| + multiset(sched[..j])[w] == |queues[w]|)
    && multiset(order) + multiset(Flatten(rest)) == multiset(Flatten(queues))
  }

  lemma ScheduleStart(describe: Path -> Result<FileDesc>, queues: seq<seq<Path>>, sched: seq<nat>, base: map<string, seq<FileDesc>>)
    requires ValidSchedule(queues, sched)
    ensures Running(describe, queues, sched, 0, queues, [], base, base)
  {
    assert sched[..0] == [];
  }

  /** The worker a valid schedule names at step `j` has a next path, and running it advances the schedule. */
  lemma ScheduleStep(queues: seq<seq<Path>>, sched: seq<nat>, j: nat, rest: seq<seq<Path>>, order: seq<Path>)
    requires ValidSchedule(queues, sched) && Progress(queues, sched, j, rest, order) && j < |sched|
    ensures rest[sched[j]] != []
    ensures Progress(queues, sched, j + 1, rest[sched[j] := rest[sched[j]][1..]], order + [rest[sched[j]][0]])
  {
    var w := sched[j];
    ScheduleNext(queues, sched, j, rest, order);
    var rest', x := rest[w := rest[w][1..]], rest[w][0];
    ScheduleCounts(queues, sched, j, rest);
    FlattenTakeFirst(rest, w);
    assert multiset(order + [x]) == multiset(order) + multiset{x};
  }

  lemma ScheduleNext(queues: seq<seq<Path>>, sched: seq<nat>, j: nat, rest: seq<seq<Path>>, order: seq<Path>)
    requires ValidSchedule(queues, sched) && Progress(queues, sched, j, rest, order) && j < |sched|
    ensures rest[sched[j]] != []
  {
    var w := sched[j];
    assert sched == sched[..j] + sched[j..];
    assert multiset(sched) == multiset(sched[..j]) + multiset(sched[j..]);
    assert sched[j..][0] == w;
    assert multiset(sched[j..])[w] >= 1;
  }

  lemma ScheduleCounts(queues: seq<seq<Path>>, sched: seq<nat>, j: nat, rest: seq<seq<Path>>)
    requires j < |sched| && |rest| == |queues| && sched[j] < |rest| && rest[sched[j]] != []
    requires forall w :: 0 <= w < |queues| ==> |rest[w]| + multiset(sched[..j])[w] == |queues[w]|
    ensures var rest' := rest[sched[j] := rest[sched[j]][1..]];
            forall w :: 0 <= w < |queues| ==> |rest'[w]| + multiset(sched[..j + 1])[w] == |queues[w]|
  {
    assert sched[..j + 1] == sched[..j] + [sched[j]];
  }

  /** Once the whole schedule has run, every dequeued path has run exactly once. */
  lemma ScheduleEnd(queues: seq<seq<Path>>, sched: seq<nat>, rest: seq<seq<Path>>, order: seq<Path>)
    requires ValidSchedule(queues, sched) && Progress(queues, sched, |sched|, rest, order)
    ensures multiset(order) == multiset(Flatten(queues))
  {
    assert sched[..|sched|] == sched;
    FlattenEmpties(rest);
  }

  /**
   * The workers of `findDupes`, interleaved by `sched`: at step `j` worker
   * `sched[j]` runs its next iteration. `order` records the paths in the
   * order their iterations ran: every dequeued path exactly once, and the
   * map holds the successful descriptors appended in that order.
   */
  method RunWorkers(env: Env, queues: seq<seq<Path>>, sched: seq<nat>, index: HashIndex) returns (ghost order: seq<Path>)
    requires ValidSchedule(queues, sched)
    modifies index
    ensures multiset(order) == multiset(Flatten(queues))
    ensures index.filesByHash == InsertAll(old(index.filesByHash), Described(Descriptors(env), order))
  {
    ghost var base := index.filesByHash;
    order := [];
    var rest := queues;
    ScheduleStart(Descriptors(env), queues, sched, base);
    for j := 0 to |sched|
      invariant Running(Descriptors(env), queues, sched, j, rest, order, base, index.filesByHash)
    {
      var w := sched[j];
      ScheduleNext(queues, sched, j, rest, order);
      var filename := rest[w][0];
      ghost var before := index.filesByHash;
      ProcessFile(env, filename, index);
      WorkerStep(Descriptors(env), queues, sched, j, rest, order, base, before, index.filesByHash);
      rest := rest[w := rest[w][1..]];
      order := order + [filename];
    }
    ScheduleEnd(queues, sched, rest, order);
  }

  /**
   * The state of the interleaved workers after `j` steps of a valid
   * schedule: `rest` holds what each worker has yet to dequeue, `order` the
   * paths run so far, and `m` the map built from `base` by their iterations.
   */
  ghost predicate Running(describe: Path -> Result<FileDesc>, queues: seq<seq<Path>>, sched: seq<nat>, j: nat,
                          rest: seq<seq<Path>>, order: seq<Path>, base: map<string, seq<FileDesc>>, m: map<string, seq<FileDesc>>)
  {
    && ValidSchedule(queues, sched)
    && Progress(queues, sched, j, rest, order)
    && m == InsertAll(base, Described(describe, order))
  }

  /**
   * One iteration of the interleaved workers, on the maps before and after
   * it: the schedule advances and the map gains the descriptor of the path
   * just dequeued, if any.
   */
  lemma WorkerStep(describe: Path -> Result<FileDesc>, queues: seq<seq<Path>>, sched: seq<nat>, j: nat, rest: seq<seq<Path>>, order: seq<Path>,
                   base: map<string, seq<FileDesc>>, before: map<string, seq<FileDesc>>, after: map<string, seq<FileDesc>>)
    requires Running(describe, queues, sched, j, rest, order, base, before) && j < |sched| && rest[sched[j]] != []
    requires after == InsertAll(before, Described(describe, [rest[sched[j]][0]]))
    ensures Running(describe, queues, sched, j + 1, rest[sched[j] := rest[sched[j]][1..]], order + [rest[sched[j]][0]], base, after)
  {
    ScheduleStep(queues, sched, j, rest, order);
    ProcessFileStep(describe, base, order, rest[sched[j]][0], before, after);
  }

  /**
   * What `findDupes` returns, counted per digest and descriptor: `d` is
   * listed under `h` as often as its path was queued, exactly when
   * `generateFileDesc` of its path yields `d` and `d`'s digest is `h`;
   * otherwise it is not listed under `h` at all.
   */
  ghost predicate SharedOutcome(env: Env, queue: seq<Path>, filesByHash: map<string, seq<FileDesc>>)
  {
    forall h, d :: multiset(Get(filesByHash, h))[d] ==
      if Describe(env, d.path) == Ok(d) && d.hash == h then multiset(queue)[d.path] else 0
  }

  /**
   * `findDupes` with the goroutines replaced by a schedule: the walk queues
   * `TaskQueue(visits)`, the workers together dequeue every queued path once
   * (in any split), their iterations run in the order `sched` gives, and
   * the shared map is returned once every worker is done.
   */
  method FindDupes(env: Env, visits: seq<Visit>, queues: seq<seq<Path>>, sched: seq<nat>)
    returns (filesByHash: map<string, seq<FileDesc>>)
    requires multiset(Flatten(queues)) == multiset(TaskQueue(visits))
    requires ValidSchedule(queues, sched)
    ensures SharedOutcome(env, TaskQueue(visits), filesByHash)
    ensures forall h :: h in filesByHash ==> filesByHash[h] != []
  {
    var index := new HashIndex();
    ghost var order := RunWorkers(env, queues, sched, index);
    filesByHash := index.filesByHash;
    InsertedOutcome(env, TaskQueue(visits), order, filesByHash);
  }

  /**
   * The map built from the empty map by the iterations of all workers, in
   * any order that runs every path of `queue` once, is the outcome of
   * `findDupes` for `queue`, and none of its lists is empty.
   */
  lemma InsertedOutcome(env: Env, queue: seq<Path>, order: seq<Path>, m: map<string, seq<FileDesc>>)
    requires multiset(order) == multiset(queue)
    requires m == InsertAll(map[], Described(Descriptors(env), order))
    ensures SharedOutcome(env, queue, m)
    ensures forall h :: h in m ==> m[h] != []
  {
    InsertAllNonEmpty(map[], Described(Descriptors(env), order));
    assert KeepsPath(Descriptors(env));
    forall h, d ensures multiset(Get(m, h))[d] ==
                        if Describe(env, d.path) == Ok(d) && d.hash == h then multiset(queue)[d.path] else 0
    {
      InsertAllCount(map[], Described(Descriptors(env), order), h, d);
      DescribedCount(Descriptors(env), order, d);
    }
  }

  /**
   * Two schedules, or two splits of the queue among the workers, give maps
   * with the same keys and the same descriptors under each key: only the
   * order within a list can differ.
   */
  lemma OutcomeDeterminesGroups(env: Env, queue: seq<Path>, m1: map<string, seq<FileDesc>>, m2: map<string, seq<FileDesc>>)
    requires SharedOutcome(env, queue, m1) && SharedOutcome(env, queue, m2)
    requires forall h :: h in m1 ==> m1[h] != []
    requires forall h :: h in m2 ==> m2[h] != []
    ensures m1.Keys == m2.Keys
    ensures forall h :: multiset(Get(m1, h)) == multiset(Get(m2, h))
  {
    forall h ensures multiset(Get(m1, h)) == multiset(Get(m2, h)) {
      forall d ensures multiset(Get(m1, h))[d] == multiset(Get(m2, h))[d] {
        assert multiset(Get(m1, h))[d] == if Describe(env, d.path) == Ok(d) && d.hash == h then multiset(queue)[d.path] else 0;
      }
    }
    forall h | h in m1 ensures h in m2 {
      assert multiset(Get(m1, h))[m1[h][0]] > 0;
      assert multiset(Get(m2, h)) == multiset(Get(m1, h));
    }
    forall h | h in m2 ensures h in m1 {
      assert multiset(Get(m2, h))[m2[h][0]] > 0;
      assert multiset(Get(m1, h)) == multiset(Get(m2, h));
    }
  }

  /**
   * Soundness of the grouping: a descriptor listed under `h` is what
   * `generateFileDesc` of its path yields, its digest is `h`, and its path was
   * visited by the walk as an accessible regular file whose base name is not
   * excluded.
   */
  lemma SharedSound(env: Env, visits: seq<Visit>, filesByHash: map<string, seq<FileDesc>>, h: string, d: FileDesc)
    requires SharedOutcome(env, TaskQueue(visits), filesByHash)
    requires h in filesByHash && d in filesByHash[h]
    ensures Describe(env, d.path) == Ok(d) && d.hash == h
    ensures d.path in TaskQueue(visits)
    ensures exists i :: 0 <= i < |visits| && visits[i].path == d.path && Admitted(visits[i])
  {
    assert multiset(Get(filesByHash, h))[d] > 0;
    TaskQueueHas(visits, d.path);
  }

  /**
   * Completeness of the grouping: every queued path whose file can be opened
   * and read to EOF is listed under the digest of its contents.
   */
  lemma SharedComplete(env: Env, visits: seq<Visit>, filesByHash: map<string, seq<FileDesc>>, p: Path)
    requires SharedOutcome(env, TaskQueue(visits), filesByHash)
    requires p in TaskQueue(visits) && ReadFile(env, p).Ok?
    ensures var h := env.md5(ReadFile(env, p).value);
            h in filesByHash && Describe(env, p).value in filesByHash[h]
  {
    var d := Describe(env, p).value;
    assert multiset(Get(filesByHash, d.hash))[d] > 0;
  }

  /**
   * A tree holding one readable regular file yields a map with one digest
   * and that file alone under it: not empty, yet no group of two.
   */
  lemma SingleFileMap(env: Env, visits: seq<Visit>, filesByHash: map<string, seq<FileDesc>>, p: Path)
    requires SharedOutcome(env, TaskQueue(visits), filesByHash)
    requires TaskQueue(visits) == [p] && ReadFile(env, p).Ok?
    ensures filesByHash != map[]
    ensures forall h :: h in filesByHash ==> |filesByHash[h]| < 2
  {
    SharedComplete(env, visits, filesByHash, p);
    var e := Describe(env, p).value;
    forall h | h in filesByHash ensures |filesByHash[h]| < 2 {
      forall d | d in filesByHash[h] ensures d == e {
        SharedSound(env, visits, filesByHash, h, d);
      }
      assert multiset(Get(filesByHash, h))[e] <= multiset([p])[p];
      AtMostOne(filesByHash[h], e);
    }
  }

  /**
   * `printDupes` as written, on a tree with a single readable regular file,
   * prints the "Dupes found:" header with no group under it.
   */
  lemma SingleFileClaimsDupes(env: Env, visits: seq<Visit>, filesByHash: map<string, seq<FileDesc>>, p: Path, out: Printed<FileDesc>)
    requires SharedOutcome(env, TaskQueue(visits), filesByHash)
    requires TaskQueue(visits) == [p] && ReadFile(env, p).Ok?
    requires IsReportOf(filesByHash, out)
    ensures out == Dupes([])
  {
    SingleFileMap(env, visits, filesByHash, p);
    HeaderWithoutGroups(filesByHash, out);
  }

  /** The intended message for the same tree is "No dupes found." */
  lemma SingleFileNoDupes(env: Env, visits: seq<Visit>, filesByHash: map<string, seq<FileDesc>>, p: Path, out: Printed<FileDesc>)
    requires SharedOutcome(env, TaskQueue(visits), filesByHash)
    requires TaskQueue(visits) == [p] && ReadFile(env, p).Ok?
    requires IsIntendedReportOf(filesByHash, out)
    ensures out == NoDupes
  {
    SingleFileMap(env, visits, filesByHash, p);
  }

  /**
   * `printDupes` with the message test corrected: finds the duplicates,
   * then prints "No dupes found." exactly when no digest has two or more
   * descriptors, and otherwise the header and every such group.
   */
  method FindAndReport(env: Env, visits: seq<Visit>, queues: seq<seq<Path>>, sched: seq<nat>)
    returns (filesByHash: map<string, seq<FileDesc>>, out: Printed<FileDesc>)
    requires multiset(Flatten(queues)) == multiset(TaskQueue(visits))
    requires ValidSchedule(queues, sched)
    ensures SharedOutcome(env, TaskQueue(visits), filesByHash)
    ensures IsIntendedReportOf(filesByHash, out)
  {
    filesByHash := FindDupes(env, visits, queues, sched);
    out := PrintDupesIntended(filesByHash);
  }
}
