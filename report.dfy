/**
 * `printDupes`: what is printed for the digest map `findDupes` returns.
 * Both variants have the same printing loop; the descriptor type is a
 * parameter. Each printed group stands for the digest line followed by one
 * `path mtime` line per descriptor.
 */
module Report {

  /** One printed group: the digest and the descriptors listed under it. */
  datatype Group<D> = Group(hash: string, files: seq<D>)

  /** "No dupes found.", or the header followed by the printed groups in printing order. */
  datatype Printed<D> = NoDupes | Dupes(groups: seq<Group<D>>)

  /** Every printed group is a whole list of the map with at least two entries. */
  ghost predicate GroupsFrom<D>(m: map<string, seq<D>>, groups: seq<Group<D>>)
  {
    forall i :: 0 <= i < |groups| ==>
      groups[i].hash in m && groups[i].files == m[groups[i].hash] && |groups[i].files| >= 2
  }

  /** Every list of the map with at least two entries is printed, and no digest is printed twice. */
  ghost predicate CoversDupes<D>(m: map<string, seq<D>>, groups: seq<Group<D>>)
  {
    && (forall h :: h in m && |m[h]| >= 2 ==> exists i :: 0 <= i < |groups| && groups[i].hash == h)
    && (forall i, j :: 0 <= i < j < |groups| ==> groups[i].hash != groups[j].hash)
  }

  /** What `printDupes` prints: "No dupes found." exactly for an empty map, else the header and every group of 2 or more. */
  ghost predicate IsReportOf<D>(m: map<string, seq<D>>, out: Printed<D>)
  {
    && (out.NoDupes? <==> m == map[])
    && (out.Dupes? ==> GroupsFrom(m, out.groups) && CoversDupes(m, out.groups))
  }

  /** The loop over the map's keys, in any order, collecting the groups of length 2 or more. */
  method CollectGroups<D>(filesByHash: map<string, seq<D>>) returns (groups: seq<Group<D>>)
    ensures GroupsFrom(filesByHash, groups) && CoversDupes(filesByHash, groups)
  {
    groups := [];
    var pending := filesByHash.Keys;
    while pending != {}
      invariant pending <= filesByHash.Keys
      invariant GroupsFrom(filesByHash, groups)
      invariant forall i :: 0 <= i < |groups| ==> groups[i].hash !in pending
      invariant forall h :: h in filesByHash && h !in pending && |filesByHash[h]| >= 2 ==>
                  exists i :: 0 <= i < |groups| && groups[i].hash == h
      invariant forall i, j :: 0 <= i < j < |groups| ==> groups[i].hash != groups[j].hash
      decreases pending
    {
      var hash :| hash in pending;
      pending := pending - {hash};
      var fileDescs := filesByHash[hash];
      if |fileDescs| < 2 {
        continue;
      }
      ghost var before := groups;
      groups := groups + [Group(hash, fileDescs)];
      assert forall i :: 0 <= i < |before| ==> groups[i] == before[i];
      assert groups[|groups| - 1].hash == hash;
    }
  }

  /** `printDupes` as written. */
  method PrintDupes<D>(filesByHash: map<string, seq<D>>) returns (out: Printed<D>)
    ensures IsReportOf(filesByHash, out)
  {
    if |filesByHash| == 0 {
      return NoDupes;
    }
    var groups := CollectGroups(filesByHash);
    out := Dupes(groups);
  }

  /** Printed groups witness a list of two or more entries in the map. */
  lemma GroupsShowDupes<D>(m: map<string, seq<D>>, groups: seq<Group<D>>)
    requires GroupsFrom(m, groups)
    ensures groups != [] ==> exists h :: h in m && |m[h]| >= 2
  {
    if groups != [] {
      assert groups[0].hash in m;
    }
  }

  /**
   * A map that is not empty but has no list of two or more entries makes
   * `printDupes` print the duplicates header with no group under it.
   */
  lemma HeaderWithoutGroups<D>(m: map<string, seq<D>>, out: Printed<D>)
    requires m != map[] && forall h :: h in m ==> |m[h]| < 2
    requires IsReportOf(m, out)
    ensures out == Dupes([])
  {
    GroupsShowDupes(m, out.groups);
  }

  /** The message that was evidently meant: "No dupes found." exactly when no list has two or more entries. */
  ghost predicate IsIntendedReportOf<D>(m: map<string, seq<D>>, out: Printed<D>)
  {
    && (out.NoDupes? <==> forall h :: h in m ==> |m[h]| < 2)
    && (out.Dupes? ==> GroupsFrom(m, out.groups) && CoversDupes(m, out.groups))
  }

  /** `printDupes` with the emptiness test made on the groups it prints rather than on the map. */
  method PrintDupesIntended<D>(filesByHash: map<string, seq<D>>) returns (out: Printed<D>)
    ensures IsIntendedReportOf(filesByHash, out)
  {
    var groups := CollectGroups(filesByHash);
    if groups == [] {
      return NoDupes;
    }
    out := Dupes(groups);
    assert groups[0].hash in filesByHash && |filesByHash[groups[0].hash]| >= 2;
  }

  /** The intended message never shows a header without groups: it prints a group whenever it prints the header. */
  lemma IntendedHeaderHasGroups<D>(m: map<string, seq<D>>, out: Printed<D>)
    requires IsIntendedReportOf(m, out)
    ensures out.Dupes? ==> out.groups != []
  {
    if out.Dupes? {
      var h :| h in m && |m[h]| >= 2;
      var i :| 0 <= i < |out.groups| && out.groups[i].hash == h;
    }
  }
}
