/**
 * The registry of loaded data files: for each file id, the file name, the
 * tree read from it and the time it was read. Ids are QString keys of a
 * QMap, so they are compared exactly and listed in QString order.
 */
module Tracking {
  import opened QtText
  import opened Ordering
  import opened Hierarchy

  /** FileInfo. The load time is the clock's reading, kept as the text the clock gave. */
  datatype FileInfo = FileInfo(fileName: string, hierarchy: DataHierarchy?, loaded: string)

  class DataFileTracker {
    /** m_Files, keyed by file id. */
    var files: map<string, FileInfo>

    constructor()
      ensures files == map[]
    {
      files := map[];
    }

    /**
     * Add: registers the file under id when the id is new, and reports
     * whether it did; a known id leaves the registry as it was. The clock's
     * reading is the parameter now.
     */
    method Add(fileName: string, id: string, hierarchy: DataHierarchy?, now: string) returns (added: bool)
      modifies this
      ensures added <==> id !in old(files)
      ensures added ==> files == old(files)[id := FileInfo(fileName, hierarchy, now)]
      ensures !added ==> files == old(files)
      ensures added ==> Hierarchy(id) == hierarchy
    {
      added := false;
      if id !in files {
        var newFile := FileInfo(fileName, hierarchy, now);
        files := files[id := newFile];
        added := true;
      }
    }

    /** Hierarchy: the tree registered under exactly this id, or null for an unknown id. */
    function Hierarchy(id: string): (h: DataHierarchy?)
      reads this
      ensures id in files ==> h == files[id].hierarchy
      ensures id !in files ==> h == null
    {
      if id in files then files[id].hierarchy else null
    }

    /**
     * Files: a fresh list of every registered file, once each, in ascending
     * order of id, as the QMap iterator visits them.
     */
    method Files() returns (filesDest: seq<FileInfo>)
      ensures filesDest == Listing(files, SortedStrings(files.Keys))
    {
      filesDest := [];
      ghost var ids: seq<string> := [];
      var remaining := files.Keys;
      while remaining != {}
        invariant remaining <= files.Keys
        invariant ids + SortedStrings(remaining) == SortedStrings(files.Keys)
        invariant forall i :: 0 <= i < |ids| ==> ids[i] in files
        invariant filesDest == Listing(files, ids)
        decreases |remaining|
      {
        StringMinExists(remaining);
        var k :| k in remaining && forall y :: y in remaining && y != k ==> StrLess(k, y);
        OrderStep(files.Keys, ids, remaining, k);
        ListingNext(files, ids, k);
        assert k in remaining;
        filesDest := filesDest + [files[k]];
        ids := ids + [k];
        remaining := remaining - {k};
      }
      assert SortedStrings(remaining) == [];
      assert ids + [] == ids;
    }
  }

  /** The registered files of the ids, in the ids' order. */
  function Listing(files: map<string, FileInfo>, ids: seq<string>): (r: seq<FileInfo>)
    requires forall i :: 0 <= i < |ids| ==> ids[i] in files
    ensures |r| == |ids|
    ensures forall i :: 0 <= i < |ids| ==> r[i] == files[ids[i]]
    decreases |ids|
  {
    if ids == [] then [] else Listing(files, ids[..|ids| - 1]) + [files[ids[|ids| - 1]]]
  }

  /** Taking the least remaining id extends the listed prefix of the ordered ids by that id. */
  lemma {:induction false} OrderStep(all: set<string>, ids: seq<string>, remaining: set<string>, k: string)
    requires ids + SortedStrings(remaining) == SortedStrings(all)
    requires k in remaining && forall y :: y in remaining && y != k ==> StrLess(k, y)
    ensures (ids + [k]) + SortedStrings(remaining - {k}) == SortedStrings(all)
  {
    SortedStringsStep(remaining, k);
  }

  lemma {:induction false} ListingNext(files: map<string, FileInfo>, ids: seq<string>, k: string)
    requires forall i :: 0 <= i < |ids| ==> ids[i] in files
    requires k in files
    ensures forall i :: 0 <= i < |ids + [k]| ==> (ids + [k])[i] in files
    ensures Listing(files, ids + [k]) == Listing(files, ids) + [files[k]]
  {
    assert (ids + [k])[..|ids|] == ids;
  }

  /** The list Files gives holds one entry per registered id, in strictly ascending order of id. */
  lemma {:induction false} FilesListing(t: DataFileTracker)
    ensures var ids := SortedStrings(t.files.Keys);
      && |ids| == |t.files|
      && (forall id :: id in t.files <==> id in ids)
      && (forall i, j :: 0 <= i < j < |ids| ==> StrLess(ids[i], ids[j]))
      && |Listing(t.files, ids)| == |t.files|
      && (forall i :: 0 <= i < |ids| ==> Listing(t.files, ids)[i] == t.files[ids[i]])
  {
    SortedStringsSpec(t.files.Keys);
  }

  /** A file Add registers appears in the list Files gives, exactly where its id falls in order. */
  lemma {:induction false} AddedIsListed(files: map<string, FileInfo>, id: string, info: FileInfo)
    ensures var ids := SortedStrings(files[id := info].Keys);
      exists i :: 0 <= i < |ids| && ids[i] == id && Listing(files[id := info], ids)[i] == info
  {
    var m := files[id := info];
    SortedStringsSpec(m.Keys);
    var ids := SortedStrings(m.Keys);
    assert id in ids;
    var i :| 0 <= i < |ids| && ids[i] == id;
    assert Listing(m, ids)[i] == m[id];
  }
}
