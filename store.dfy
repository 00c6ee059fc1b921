/** The `found_items` collection of the authoritative document store, as the engines see it
    through `get_database()`. Network I/O: writes and queries may raise at any time. */
module Store {
  import opened Common
  import opened Ranking

  /** A document of `found_items`. A field that is `None` is a key the document does not
      have: reading it raises `KeyError`. */
  datatype Document = Document(
    itemId: Option<string>,
    description: Option<string>,
    category: Option<string>,
    vector: Option<Vector>,
    createdAt: real,
    indexPosition: Option<int>)

  /** The document has the three keys a metadata record is read from. */
  predicate HasRecordKeys(d: Document)
  {
    d.itemId.Some? && d.description.Some? && d.category.Some?
  }

  /** The metadata record `{id, description, category}` read from a document. */
  function RecordOf(d: Document): Record
    requires HasRecordKeys(d)
  {
    Record(d.itemId.value, d.description.value, d.category.value)
  }

  /** `find().sort("created_at", 1)`: every document, oldest first. */
  function ByCreatedAt(docs: seq<Document>): (r: seq<Document>)
    ensures multiset(r) == multiset(docs)
    ensures forall i, j :: 0 <= i < j < |r| ==> r[i].createdAt <= r[j].createdAt
  {
    var r := SortDesc(docs, (d: Document) => -d.createdAt);
    assert forall i, j :: 0 <= i < j < |r| ==> -r[i].createdAt >= -r[j].createdAt;
    r
  }

  class Collection {
    var documents: seq<Document>

    constructor (documents: seq<Document>)
      ensures this.documents == documents
    {
      this.documents := documents;
    }

    /** `insert_one(doc)`: the document is stored, or the call raises (lost connection,
        duplicate `item_id`, ...) and nothing is stored. */
    method InsertOne(doc: Document) returns (ok: bool)
      modifies this
      ensures documents == if ok then old(documents) + [doc] else old(documents)
    {
      ok := *;
      if ok {
        documents := documents + [doc];
      }
    }

    /** `await find().sort("created_at", 1).to_list(length=None)`: every document oldest
        first, or `None` when the query raises. */
    method FindAllByCreatedAt() returns (r: Option<seq<Document>>)
      ensures r == None || r == Some(ByCreatedAt(documents))
    {
      if * {
        r := None;
      } else {
        r := Some(ByCreatedAt(documents));
      }
    }
  }
}
