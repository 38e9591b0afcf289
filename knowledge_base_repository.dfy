/**
 * The knowledge-base repository: how a record is written to the semantic
 * memory, how the top search hit is mapped back, and how the collection is
 * created on first use. The backing memory store is an abstract state, a map
 * from collection name to the list of records written to it.
 */
module KnowledgeBaseRepository {
  import opened Wrappers
  import opened Models

  const IndexName := "georgekb"
  const MinRelevanceScore: real := 0.6
  const TimeStampField := "time_stamp"

  /** A record as the semantic memory stores and returns it; the metadata is the decoded JSON object. */
  datatype MemoryRecord = MemoryRecord(id: string, description: string, text: string, additionalMetadata: map<string, string>)

  /** The dictionary `search_memory` returns. */
  datatype MemoryHit = MemoryHit(title: string, content: string, timeStamp: string)

  /** The error a failed write raises. */
  datatype StoreError = StoreError(recordId: string)

  /** The store's relevance search: (collection, query, minimum relevance) to hits, best first. */
  type SearchBackend = (string, string, real) -> seq<MemoryRecord>

  /** The record `save_memory` writes for `metadata`. */
  function ToMemoryRecord(metadata: PodcastRecord): (r: MemoryRecord)
    ensures r.id == metadata.id && r.description == metadata.podcastTitle && r.text == metadata.content
    ensures r.additionalMetadata.Keys == {TimeStampField}
    ensures MetadataTimeStamp(r.additionalMetadata) == metadata.timeStamp
  {
    MemoryRecord(metadata.id, metadata.podcastTitle, metadata.content, map[TimeStampField := metadata.timeStamp])
  }

  /** `metadata.get("time_stamp", "")`. */
  function MetadataTimeStamp(metadata: map<string, string>): string {
    if TimeStampField in metadata then metadata[TimeStampField] else ""
  }

  /** `search_memory`'s mapping of the hit list: the first hit, or an all-empty record. */
  function TopHit(hits: seq<MemoryRecord>): (h: MemoryHit)
    ensures hits == [] ==> h == MemoryHit("", "", "")
    ensures hits != [] ==> h.title == hits[0].description && h.content == hits[0].text
    ensures hits != [] && TimeStampField in hits[0].additionalMetadata ==>
      h.timeStamp == hits[0].additionalMetadata[TimeStampField]
    ensures hits != [] && TimeStampField !in hits[0].additionalMetadata ==> h.timeStamp == ""
  {
    if |hits| != 0 then
      MemoryHit(hits[0].description, hits[0].text, MetadataTimeStamp(hits[0].additionalMetadata))
    else
      MemoryHit("", "", "")
  }

  /** Only the first hit counts: what follows it never changes the result. */
  lemma TopHitIgnoresRest(first: MemoryRecord, rest1: seq<MemoryRecord>, rest2: seq<MemoryRecord>)
    ensures TopHit([first] + rest1) == TopHit([first] + rest2)
  {
  }

  /** The metadata `save_memory` writes holds the time stamp and nothing else. */
  lemma SavedMetadataHoldsOnlyTimeStamp(metadata: PodcastRecord)
    ensures ToMemoryRecord(metadata).additionalMetadata.Keys == {TimeStampField}
  {
  }

  /**
   * Round trip: when a record written by `save_memory` is the top hit,
   * `search_memory` gives back its title, content and time stamp.
   */
  lemma SaveThenSearchRoundTrip(metadata: PodcastRecord, rest: seq<MemoryRecord>)
    ensures TopHit([ToMemoryRecord(metadata)] + rest) == MemoryHit(metadata.podcastTitle, metadata.content, metadata.timeStamp)
  {
  }

  /** The backing memory store: its collections and which writes it refuses. */
  class MemoryStore {
    var collections: map<string, seq<MemoryRecord>>
    /** The store's failure behaviour: the writes it raises on. */
    const rejects: MemoryRecord -> bool

    constructor (initial: map<string, seq<MemoryRecord>>, rejects: MemoryRecord -> bool)
      ensures collections == initial && this.rejects == rejects
    {
      collections := initial;
      this.rejects := rejects;
    }

    /** The records of a collection; a missing collection reads as empty. */
    function Collection(name: string): seq<MemoryRecord>
      reads this
    {
      if name in collections then collections[name] else []
    }

    method DoesCollectionExist(name: string) returns (b: bool)
      ensures b <==> name in collections
    {
      b := name in collections;
    }

    method CreateCollection(name: string)
      requires name !in collections
      modifies this
      ensures collections == old(collections)[name := []]
    {
      collections := collections[name := []];
    }

    /** Write one record: append it to the collection, or raise without changing anything. */
    method Save(collection: string, record: MemoryRecord) returns (r: Outcome<StoreError>)
      modifies this
      ensures r == if rejects(record) then Fail(StoreError(record.id)) else Pass
      ensures r.Pass? ==> collections == old(collections)[collection := old(Collection(collection)) + [record]]
      ensures r.Fail? ==> collections == old(collections)
    {
      if rejects(record) {
        return Fail(StoreError(record.id));
      }
      collections := collections[collection := Collection(collection) + [record]];
      r := Pass;
    }
  }

  /** `KnowledgeBaseRepository` over a store and the store's relevance search. */
  class KnowledgeBaseRepository {
    const store: MemoryStore
    const search: SearchBackend

    constructor (store: MemoryStore, search: SearchBackend)
      ensures this.store == store && this.search == search
    {
      this.store := store;
      this.search := search;
    }

    /** `save_memory`: write id, title as description, content as text, and the time stamp as metadata to `georgekb`. */
    method SaveMemory(metadata: PodcastRecord) returns (r: Outcome<StoreError>)
      modifies store
      ensures r == if store.rejects(ToMemoryRecord(metadata)) then Fail(StoreError(metadata.id)) else Pass
      ensures r.Pass? ==>
        store.collections == old(store.collections)[IndexName := old(store.Collection(IndexName)) + [ToMemoryRecord(metadata)]]
      ensures r.Fail? ==> store.collections == old(store.collections)
    {
      r := store.Save(IndexName, ToMemoryRecord(metadata));
    }

    /** `search_memory`: search `georgekb` with minimum relevance 0.6 and map the top hit. */
    function SearchMemory(query: string): (h: MemoryHit)
      ensures var hits := search(IndexName, query, MinRelevanceScore);
        && (hits == [] ==> h == MemoryHit("", "", ""))
        && (hits != [] ==> h == MemoryHit(hits[0].description, hits[0].text, MetadataTimeStamp(hits[0].additionalMetadata)))
    {
      TopHit(search(IndexName, query, MinRelevanceScore))
    }

    /** `initialize_knowledge_base`: create `georgekb` when it does not exist, else change nothing. */
    method InitializeKnowledgeBase()
      modifies store
      ensures IndexName in store.collections
      ensures old(IndexName in store.collections) ==> store.collections == old(store.collections)
      ensures old(IndexName !in store.collections) ==> store.collections == old(store.collections)[IndexName := []]
    {
      var exists_ := store.DoesCollectionExist(IndexName);
      if !exists_ {
        store.CreateCollection(IndexName);
      }
    }
  }

  /** Searching only ever consults the store for `georgekb` at relevance 0.6. */
  lemma SearchMemoryUsesIndex(r1: KnowledgeBaseRepository, r2: KnowledgeBaseRepository, query: string)
    requires r1.search(IndexName, query, MinRelevanceScore) == r2.search(IndexName, query, MinRelevanceScore)
    ensures r1.SearchMemory(query) == r2.SearchMemory(query)
  {
  }

  /** Initialising twice leaves the store as initialising once. */
  method InitializeTwice(repo: KnowledgeBaseRepository)
    modifies repo.store
    ensures IndexName in repo.store.collections
    ensures repo.store.Collection(IndexName) == old(repo.store.Collection(IndexName))
  {
    repo.InitializeKnowledgeBase();
    ghost var once := repo.store.collections;
    repo.InitializeKnowledgeBase();
    assert repo.store.collections == once;
  }
}
