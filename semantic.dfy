/** The FAISS-backed `SemanticEngine` (app/core/semantic.py): a vector index and a list of
    metadata records kept side by side, a disk snapshot of both, and a rebuild from the
    document store. */
module Semantic {
  import opened Common
  import opened Ranking
  import opened Store

  /** A file under the configured paths: absent, present but unreadable, or holding a value. */
  datatype FileState<T> = Missing | Corrupt | Stored(contents: T)

  /** What startup makes of one file: its contents, or empty when it is missing or unreadable. */
  function LoadedOrEmpty<T>(f: FileState<seq<T>>): seq<T>
  {
    if f.Stored? then f.contents else []
  }

  /** The index and metadata files on disk. */
  class Disk {
    var indexFile: FileState<seq<Vector>>
    var metadataFile: FileState<seq<Record>>

    constructor (indexFile: FileState<seq<Vector>>, metadataFile: FileState<seq<Record>>)
      ensures this.indexFile == indexFile && this.metadataFile == metadataFile
    {
      this.indexFile := indexFile;
      this.metadataFile := metadataFile;
    }

    /** `os.makedirs` then `faiss.write_index`: the index is written, or a call raises and
        the file is left as it was or truncated. */
    method WriteIndex(v: seq<Vector>) returns (ok: bool)
      modifies this
      ensures metadataFile == old(metadataFile)
      ensures ok ==> indexFile == Stored(v)
      ensures !ok ==> indexFile == old(indexFile) || indexFile == Corrupt
    {
      ok := *;
      if ok {
        indexFile := Stored(v);
      } else if * {
        indexFile := Corrupt;
      }
    }

    /** `pickle.dump` into the metadata file: written, or left as it was or truncated. */
    method WriteMetadata(m: seq<Record>) returns (ok: bool)
      modifies this
      ensures indexFile == old(indexFile)
      ensures ok ==> metadataFile == Stored(m)
      ensures !ok ==> metadataFile == old(metadataFile) || metadataFile == Corrupt
    {
      ok := *;
      if ok {
        metadataFile := Stored(m);
      } else if * {
        metadataFile := Corrupt;
      }
    }

    /** `os.remove` of the index file inside `try: ... except: pass`. */
    method RemoveIndex()
      modifies this
      ensures metadataFile == old(metadataFile)
      ensures indexFile == Missing || indexFile == old(indexFile)
    {
      if * {
        indexFile := Missing;
      }
    }

    /** `os.remove` of the metadata file inside `try: ... except: pass`. */
    method RemoveMetadata()
      modifies this
      ensures indexFile == old(indexFile)
      ensures metadataFile == Missing || metadataFile == old(metadataFile)
    {
      if * {
        metadataFile := Missing;
      }
    }
  }

  /** The pair of sequences a snapshot holds (or startup produces). */
  datatype Snapshot = Snapshot(index: seq<Vector>, metadata: seq<Record>)

  /** Startup's reading of the two files: each one on its own, falling back to empty. */
  function Startup(indexFile: FileState<seq<Vector>>, metadataFile: FileState<seq<Record>>): (s: Snapshot)
    ensures s.index == (if indexFile.Stored? then indexFile.contents else [])
    ensures s.metadata == (if metadataFile.Stored? then metadataFile.contents else [])
  {
    Snapshot(LoadedOrEmpty(indexFile), LoadedOrEmpty(metadataFile))
  }

  /** The two files are read independently, so startup can produce an index and a metadata
      list of different lengths: a snapshot whose metadata write failed is one way. */
  lemma StartupMayMisalign(v: Vector)
    ensures var s := Startup(Stored([v]), Missing); |s.index| == 1 && |s.metadata| == 0
    ensures var s := Startup(Missing, Stored([Record("a", "b", "c")])); |s.index| == 0 && |s.metadata| == 1
  {
  }

  /** What one `_save_to_disk` call can leave on disk. The index is written first and the
      metadata only after that succeeded; a write that raises leaves its file as it was or
      truncated; the exception never leaves the method. */
  ghost predicate SnapshotOutcome(
    oldIndex: FileState<seq<Vector>>, oldMetadata: FileState<seq<Record>>,
    newIndex: FileState<seq<Vector>>, newMetadata: FileState<seq<Record>>,
    s: Snapshot)
  {
    && (newIndex == oldIndex || newIndex == Corrupt || newIndex == Stored(s.index))
    && (newMetadata == oldMetadata || newMetadata == Corrupt || newMetadata == Stored(s.metadata))
    && (newMetadata != oldMetadata ==> newIndex == Stored(s.index))
  }

  /** A snapshot whose two writes both went through is read back exactly at the next start. */
  lemma SnapshotRoundTrip(
    oldIndex: FileState<seq<Vector>>, oldMetadata: FileState<seq<Record>>,
    newIndex: FileState<seq<Vector>>, newMetadata: FileState<seq<Record>>,
    s: Snapshot)
    requires SnapshotOutcome(oldIndex, oldMetadata, newIndex, newMetadata, s)
    requires newMetadata == Stored(s.metadata) && newMetadata != oldMetadata
    ensures Startup(newIndex, newMetadata) == s
  {
  }

  /** The document `add_item` inserts for a new item at position `pos`. */
  function NewDocument(item: Record, vector: Vector, now: real, pos: int): (d: Document)
    ensures WellFormed(d) && RecordOf(d) == item && d.vector == Some(vector)
    ensures d.createdAt == now && d.indexPosition == Some(pos)
  {
    Document(Some(item.id), Some(item.description), Some(item.category), Some(vector), now, Some(pos))
  }

  /** The document has a vector and every key of a metadata record. */
  predicate WellFormed(d: Document)
  {
    d.vector.Some? && HasRecordKeys(d)
  }

  /** The state a rebuild leaves: the two sequences, and whether the loop ran to the end
      (`complete`) or stopped at a `KeyError`. */
  datatype Rebuild = Rebuild(index: seq<Vector>, metadata: seq<Record>, complete: bool)

  /** The rebuild loop of `load_from_mongodb` over `docs`: each document's vector is added
      to the index before its keys are read for the metadata, so a document with a vector
      but a missing key leaves one vector more than records. */
  function RebuildFrom(docs: seq<Document>): (r: Rebuild)
    ensures |r.metadata| <= |r.index| <= |docs|
  {
    if docs == [] then Rebuild([], [], true)
    else
      var pre := RebuildFrom(docs[..|docs| - 1]);
      var d := docs[|docs| - 1];
      if !pre.complete then pre
      else if d.vector.None? then Rebuild(pre.index, pre.metadata, false)
      else if !HasRecordKeys(d) then
        Rebuild(pre.index + [d.vector.value], pre.metadata, false)
      else Rebuild(pre.index + [d.vector.value], pre.metadata + [RecordOf(d)], true)
  }

  /** The rebuild runs to the end exactly when every document is well-formed; it then yields
      one vector and one record per document, position by position; a stopped rebuild has at
      most one vector more than records. */
  lemma {:induction false} RebuildShape(docs: seq<Document>)
    ensures var r := RebuildFrom(docs);
      && (r.complete <==> forall d :: d in docs ==> WellFormed(d))
      && (r.complete ==> |r.index| == |r.metadata| == |docs|)
      && (r.complete ==> forall i :: 0 <= i < |docs| ==>
            WellFormed(docs[i]) && r.index[i] == docs[i].vector.value && r.metadata[i] == RecordOf(docs[i]))
      && (|r.index| == |r.metadata| || |r.index| == |r.metadata| + 1)
  {
    if docs != [] {
      var pre, last := docs[..|docs| - 1], docs[|docs| - 1];
      RebuildShape(pre);
      assert docs == pre + [last];
      assert (forall d :: d in docs ==> WellFormed(d))
        <==> (forall d :: d in pre ==> WellFormed(d)) && WellFormed(last);
    }
  }

  /** Once the rebuild has stopped at a malformed document, later documents change nothing. */
  lemma {:induction false} RebuildStopped(docs: seq<Document>, j: nat)
    requires j <= |docs|
    requires !RebuildFrom(docs[..j]).complete
    ensures RebuildFrom(docs) == RebuildFrom(docs[..j])
    decreases |docs| - j
  {
    if j < |docs| {
      assert docs[..j + 1][..j] == docs[..j];
      RebuildStopped(docs, j + 1);
    } else {
      assert docs[..j] == docs;
    }
  }

  /** A malformed document can leave the index one vector ahead of the metadata. */
  lemma RebuildMayMisalign(v: Vector)
    ensures var r := RebuildFrom([Document(None, Some("d"), Some("c"), Some(v), 0.0, None)]);
      |r.index| == 1 && |r.metadata| == 0 && !r.complete
  {
    var docs := [Document(None, Some("d"), Some("c"), Some(v), 0.0, None)];
    assert docs[..0] == [];
  }

  /** Documents written by `add_item` are well-formed, so a rebuild from a store holding only
      such documents gives aligned sequences. */
  lemma RebuildOfAddedDocuments(docs: seq<Document>)
    requires forall d :: d in docs ==> exists item, vector, now, pos :: d == NewDocument(item, vector, now, pos)
    ensures RebuildFrom(docs).complete
    ensures |RebuildFrom(docs).index| == |RebuildFrom(docs).metadata| == |docs|
  {
    RebuildShape(docs);
  }

  /** The match `search` reports for one hit. */
  datatype Match = Match(item: Record, semanticScore: real, distance: real)

  /** `max(0, min(100, 100 * np.exp(-distance / 2)))`, with `np.exp` given as `exp`. */
  function Percentage(exp: real -> real, distance: real): (p: real)
    ensures 0.0 <= p <= 100.0
  {
    Clamp(100.0 * exp(-distance / 2.0), 0.0, 100.0)
  }

  /** The hit refers to a stored record: neither -1 nor past the end of the metadata. */
  predicate Usable(h: Hit, metadata: seq<Record>)
  {
    h.pos != -1 && h.pos < |metadata|
  }

  /** The matches the loop of `search` collects from `hits`, in hit order, before sorting. */
  function Collected(hits: seq<Hit>, metadata: seq<Record>, exp: real -> real): (ms: seq<Match>)
    ensures |ms| <= |hits|
  {
    if hits == [] then []
    else
      var h := hits[|hits| - 1];
      Collected(hits[..|hits| - 1], metadata, exp)
      + (if Usable(h, metadata) then [Match(metadata[h.pos], Percentage(exp, h.distance), h.distance)] else [])
  }

  /** Every collected match comes from a usable hit: its record is the metadata at the hit's
      position, its distance the hit's, its score the hit's percentage; there are no more
      matches than hits. */
  lemma {:induction false} CollectedFromHits(hits: seq<Hit>, metadata: seq<Record>, exp: real -> real)
    ensures |Collected(hits, metadata, exp)| <= |hits|
    ensures forall m :: m in Collected(hits, metadata, exp) ==>
      exists h :: h in hits && Usable(h, metadata) && m.item == metadata[h.pos]
        && m.distance == h.distance && m.semanticScore == Percentage(exp, h.distance)
  {
    if hits != [] {
      var pre := hits[..|hits| - 1];
      CollectedFromHits(pre, metadata, exp);
      assert forall h :: h in pre ==> h in hits;
    }
  }

  /** Every usable hit yields its match, whatever the other hits are. */
  lemma {:induction false} CollectedComplete(hits: seq<Hit>, metadata: seq<Record>, exp: real -> real)
    ensures forall h :: h in hits && Usable(h, metadata) ==>
      Match(metadata[h.pos], Percentage(exp, h.distance), h.distance) in Collected(hits, metadata, exp)
  {
    if hits != [] {
      var pre := hits[..|hits| - 1];
      CollectedComplete(pre, metadata, exp);
      assert hits == pre + [hits[|hits| - 1]];
      forall h | h in hits && Usable(h, metadata)
        ensures Match(metadata[h.pos], Percentage(exp, h.distance), h.distance) in Collected(hits, metadata, exp)
      {
        if h in pre {
        }
      }
    }
  }

  /** When every hit is usable, each one yields exactly one match. */
  lemma {:induction false} CollectedAllUsable(hits: seq<Hit>, metadata: seq<Record>, exp: real -> real)
    requires forall h :: h in hits ==> Usable(h, metadata)
    ensures |Collected(hits, metadata, exp)| == |hits|
  {
    if hits != [] {
      CollectedAllUsable(hits[..|hits| - 1], metadata, exp);
    }
  }

  /** The loop of `load_from_mongodb`, one document at a time from the oldest: add the vector,
      then the record; the `KeyError` a missing key raises ends the loop. */
  method RunRebuild(docs: seq<Document>) returns (r: Rebuild)
    ensures r == RebuildFrom(docs)
  {
    var index: seq<Vector> := [];
    var metadata: seq<Record> := [];
    var i := 0;
    while i < |docs|
      invariant 0 <= i <= |docs|
      invariant Rebuild(index, metadata, true) == RebuildFrom(docs[..i])
    {
      var d := docs[i];
      assert docs[..i + 1][..i] == docs[..i] && docs[..i + 1][i] == d;
      if d.vector.None? {
        RebuildStopped(docs, i + 1);
        return Rebuild(index, metadata, false);
      }
      index := index + [d.vector.value];
      if !HasRecordKeys(d) {
        RebuildStopped(docs, i + 1);
        return Rebuild(index, metadata, false);
      }
      metadata := metadata + [RecordOf(d)];
      i := i + 1;
    }
    assert docs[..i] == docs;
    return Rebuild(index, metadata, true);
  }

  function ScoreKey(m: Match): real
  {
    m.semanticScore
  }

  class SemanticEngine {
    const embed: Embedder
    const knn: KnnSearch
    const disk: Disk
    var index: seq<Vector>
    var itemsMetadata: seq<Record>
    /** Every snapshot `_save_to_disk` was asked to write, oldest first. */
    ghost var snapshots: seq<Snapshot>

    /** One metadata record per stored vector. */
    predicate Aligned()
      reads this
    {
      |index| == |itemsMetadata|
    }

    /** `_initialize`: reads the index file and the metadata file independently; a file that
        is missing gives an empty value, one that cannot be read also gives an empty value
        and is deleted where possible. */
    constructor (embed: Embedder, knn: KnnSearch, disk: Disk)
      modifies disk
      ensures this.embed == embed && this.knn == knn && this.disk == disk
      ensures Snapshot(index, itemsMetadata) == Startup(old(disk.indexFile), old(disk.metadataFile))
      ensures snapshots == []
      ensures old(disk.indexFile).Corrupt? ==> disk.indexFile == Missing || disk.indexFile == Corrupt
      ensures !old(disk.indexFile).Corrupt? ==> disk.indexFile == old(disk.indexFile)
      ensures old(disk.metadataFile).Corrupt? ==> disk.metadataFile == Missing || disk.metadataFile == Corrupt
      ensures !old(disk.metadataFile).Corrupt? ==> disk.metadataFile == old(disk.metadataFile)
    {
      var loadedIndex := LoadedOrEmpty(disk.indexFile);
      if disk.indexFile.Corrupt? {
        disk.RemoveIndex();
      }
      var loadedMetadata := LoadedOrEmpty(disk.metadataFile);
      if disk.metadataFile.Corrupt? {
        disk.RemoveMetadata();
      }
      this.embed := embed;
      this.knn := knn;
      this.disk := disk;
      index := loadedIndex;
      itemsMetadata := loadedMetadata;
      snapshots := [];
    }

    /** `_save_to_disk`: records the attempt and writes what it can; never raises. */
    method SaveToDisk()
      modifies disk, this`snapshots
      ensures snapshots == old(snapshots) + [Snapshot(index, itemsMetadata)]
      ensures SnapshotOutcome(old(disk.indexFile), old(disk.metadataFile), disk.indexFile, disk.metadataFile,
        Snapshot(index, itemsMetadata))
    {
      snapshots := snapshots + [Snapshot(index, itemsMetadata)];
      var ok := disk.WriteIndex(index);
      if ok {
        ok := disk.WriteMetadata(itemsMetadata);
      }
    }

    /** `add_item`: appends the item's vector and its record, then tries the store (if
        there is one) and, on every tenth record, a snapshot; returns the id whatever the
        store and the disk did. */
    method AddItem(item: Record, db: Collection?, now: real) returns (id: string)
      modifies this, db, disk
      ensures id == item.id
      ensures index == old(index) + [embed(item.description)]
      ensures itemsMetadata == old(itemsMetadata) + [item]
      ensures |index| - |itemsMetadata| == old(|index| - |itemsMetadata|)
      ensures old(Aligned()) ==> Aligned()
      ensures db != null ==>
        db.documents == old(db.documents)
        || db.documents == old(db.documents) + [NewDocument(item, embed(item.description), now, |itemsMetadata| - 1)]
      ensures snapshots == old(snapshots)
        + (if |itemsMetadata| % 10 == 0 then [Snapshot(index, itemsMetadata)] else [])
      ensures |itemsMetadata| % 10 == 0 ==> SnapshotOutcome(old(disk.indexFile), old(disk.metadataFile),
        disk.indexFile, disk.metadataFile, Snapshot(index, itemsMetadata))
      ensures |itemsMetadata| % 10 != 0 ==>
        disk.indexFile == old(disk.indexFile) && disk.metadataFile == old(disk.metadataFile)
    {
      var vector := embed(item.description);
      index := index + [vector];
      itemsMetadata := itemsMetadata + [item];
      if db != null {
        var stored := db.InsertOne(NewDocument(item, vector, now, |itemsMetadata| - 1));
      }
      if |itemsMetadata| % 10 == 0 {
        SaveToDisk();
      }
      id := item.id;
    }

    /** `load_from_mongodb`: without a store, when the query raises or when the store is empty,
        nothing changes. Otherwise both sequences are rebuilt from the documents oldest first;
        a run to the end is aligned and ends with a snapshot, a run stopped by a malformed
        document keeps what it had built and takes no snapshot. */
    method LoadFromMongoDB(db: Collection?)
      modifies this, disk
      ensures (db == null || db.documents == []) ==>
        index == old(index) && itemsMetadata == old(itemsMetadata) && snapshots == old(snapshots)
      ensures
        || (index == old(index) && itemsMetadata == old(itemsMetadata) && snapshots == old(snapshots)
            && disk.indexFile == old(disk.indexFile) && disk.metadataFile == old(disk.metadataFile))
        || (db != null && db.documents != [] &&
            var r := RebuildFrom(ByCreatedAt(db.documents));
            && index == r.index && itemsMetadata == r.metadata
            && (r.complete ==>
                  && Aligned()
                  && snapshots == old(snapshots) + [Snapshot(index, itemsMetadata)]
                  && SnapshotOutcome(old(disk.indexFile), old(disk.metadataFile),
                       disk.indexFile, disk.metadataFile, Snapshot(index, itemsMetadata)))
            && (!r.complete ==>
                  && snapshots == old(snapshots)
                  && disk.indexFile == old(disk.indexFile) && disk.metadataFile == old(disk.metadataFile)))
    {
      if db == null {
        return;
      }
      var fetched := db.FindAllByCreatedAt();
      if fetched.None? || fetched.value == [] {
        assert fetched.Some? ==> multiset(db.documents) == multiset(fetched.value);
        return;
      }
      var docs := fetched.value;
      assert |docs| == |multiset(docs)| == |multiset(db.documents)| == |db.documents|;
      var rebuilt := RunRebuild(docs);
      index, itemsMetadata := rebuilt.index, rebuilt.metadata;
      if rebuilt.complete {
        RebuildShape(docs);
        SaveToDisk();
      }
    }

    /** `search`: on an empty metadata list `[]`; otherwise the k-NN answer for
        `k = min(limit, len(items_metadata))` with every -1 or out-of-range position skipped,
        each match scored into [0, 100] and the list sorted by score, highest first. The
        alignment of index and metadata is not needed for any of this. */
    method Search(queryText: string, limit: int, exp: real -> real) returns (results: seq<Match>)
      ensures itemsMetadata == [] ==> results == []
      ensures itemsMetadata != [] ==> var hits := knn(index, embed(queryText), Min(limit, |itemsMetadata|));
        && multiset(results) == multiset(Collected(hits, itemsMetadata, exp))
        && |results| <= |hits|
        && (KnnAnswer(hits, |index|, Min(limit, |itemsMetadata|)) ==> |results| <= Min(limit, |itemsMetadata|))
      ensures forall m :: m in results ==>
        m.item in itemsMetadata && 0.0 <= m.semanticScore <= 100.0
      ensures SortedDesc(results, ScoreKey)
    {
      if |itemsMetadata| == 0 {
        return [];
      }
      var queryVector := embed(queryText);
      var k := Min(limit, |itemsMetadata|);
      var hits := knn(index, queryVector, k);
      var collected: seq<Match> := [];
      var i := 0;
      while i < |hits|
        invariant 0 <= i <= |hits|
        invariant collected == Collected(hits[..i], itemsMetadata, exp)
      {
        assert hits[..i + 1][..i] == hits[..i];
        var h := hits[i];
        if h.pos == -1 || h.pos >= |itemsMetadata| {
          i := i + 1;
          continue;
        }
        collected := collected + [Match(itemsMetadata[h.pos], Percentage(exp, h.distance), h.distance)];
        i := i + 1;
      }
      assert hits[..i] == hits;
      CollectedFromHits(hits, itemsMetadata, exp);
      results := SortDesc(collected, ScoreKey);
      forall m | m in results ensures m.item in itemsMetadata && 0.0 <= m.semanticScore <= 100.0 {
        assert m in multiset(collected);
      }
    }
  }
}
