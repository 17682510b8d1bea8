/**
 * The callback both variants pass to `filepath.Walk`, which decides which
 * visited paths are sent to the workers' task queue.
 *
 * The traversal itself is not modelled: the entries `filepath.Walk` visits,
 * in its order, are given as a sequence of `Visit`s. The callback never
 * returns `filepath.SkipDir` or any other error, so Walk visits every entry
 * it can reach, including the contents of directories whose own name is
 * excluded.
 */
module Walk {
  import opened Results
  import opened FileSystem

  /** The kinds of entry an `os.FileInfo` mode describes; only `Regular` passes `Mode().IsRegular()`. */
  datatype Kind = Regular | Directory | Symlink | Device | NamedPipe | Socket | Irregular

  /** The part of `os.FileInfo` the callback looks at: `Name()` (the base name) and the mode's kind. */
  datatype EntryInfo = EntryInfo(name: string, kind: Kind)

  /** One call of the walk function: the path, and the entry's info or the error met while accessing it. */
  datatype Visit = Visit(path: Path, info: Result<EntryInfo>)

  /** The walk function's effect: the path it sends to the task queue, if any, and the error it returns. */
  datatype Verdict = Verdict(enqueued: Option<Path>, returned: Option<string>)

  /** Base names that are never sent to the task queue. */
  const Excludes: set<string> := {".", "..", ".DS_Store"}

  /** An entry the callback sends to the queue: accessible, not excluded by name, and a regular file. */
  predicate Admitted(v: Visit)
  {
    v.info.Ok? && v.info.value.name !in Excludes && v.info.value.kind == Regular
  }

  /**
   * The walk function: an access error is logged and the entry skipped, an
   * excluded name is skipped, a regular file is queued, anything else is
   * ignored; in every case it returns nil, so the walk goes on.
   */
  function WalkFn(v: Visit): (r: Verdict)
    ensures r.returned == None
    ensures r.enqueued.Some? <==> Admitted(v)
    ensures r.enqueued.Some? ==> r.enqueued.value == v.path
  {
    if v.info.Err? then Verdict(None, None)
    else if v.info.value.name in Excludes then Verdict(None, None)
    else if v.info.value.kind == Regular then Verdict(Some(v.path), None)
    else Verdict(None, None)
  }

  /** The paths the walk sends to the task queue, in the order it visits them. */
  function TaskQueue(visits: seq<Visit>): seq<Path>
  {
    if visits == [] then []
    else
      var last := visits[|visits| - 1];
      TaskQueue(visits[..|visits| - 1]) + (match WalkFn(last).enqueued case Some(p) => [p] case None => [])
  }

  /** A path is queued exactly when the walk visits it as an admitted entry. */
  lemma {:induction false} TaskQueueHas(visits: seq<Visit>, p: Path)
    ensures p in TaskQueue(visits) <==> exists i :: 0 <= i < |visits| && visits[i].path == p && Admitted(visits[i])
  {
    if visits != [] {
      var n := |visits| - 1;
      var tail := match WalkFn(visits[n]).enqueued case Some(q) => [q] case None => [];
      assert TaskQueue(visits) == TaskQueue(visits[..n]) + tail;
      assert p in tail <==> visits[n].path == p && Admitted(visits[n]);
      TaskQueueHas(visits[..n], p);
      if p in TaskQueue(visits[..n]) {
        var i :| 0 <= i < n && visits[..n][i].path == p && Admitted(visits[..n][i]);
        assert visits[i] == visits[..n][i];
      }
      if i :| 0 <= i < |visits| && visits[i].path == p && Admitted(visits[i]) {
        if i < n {
          assert visits[..n][i] == visits[i];
        }
      }
    }
  }
}
