/** The memory store (crates/oracle_omen_memory/src/store.rs): documents by
    key, a provenance index from causal events to the keys they touched, and
    a store hash over the document hashes in key order. */
module MemoryStore {
  import opened Wrappers
  import Text
  import Hashing
  import Seqs
  import D = MemoryDocument

  /** `WriteResult`. */
  datatype WriteResult = WriteResult(key: string, result: D.MergeResult, storeHash: Hashing.Hash)

  /** `DeleteResult`. */
  datatype DeleteResult = Deleted | NotFound

  /** `StoreSnapshot`. */
  datatype StoreSnapshot = StoreSnapshot(documentHashes: map<string, Hashing.Hash>, storeHash: Hashing.Hash)

  /** The hashes of a map's entries in ascending key order, as
      `values().map(hash)` yields them from a `BTreeMap`. */
  function HashesInKeyOrder(hashes: map<string, Hashing.Hash>): seq<Hashing.Hash>
    decreases |hashes|
  {
    if hashes == map[] then []
    else
      var first := Text.Least(hashes.Keys);
      [hashes[first]] + HashesInKeyOrder(hashes - {first})
  }

  /** The list has one hash per key, the i-th belonging to the i-th key in
      ascending order. */
  lemma {:induction false} HashesFollowKeys(hashes: map<string, Hashing.Hash>)
    ensures var hs := HashesInKeyOrder(hashes); var keys := Text.Sorted(hashes.Keys);
      |hs| == |hashes| && forall i :: 0 <= i < |hs| ==> keys[i] in hashes && hs[i] == hashes[keys[i]]
    decreases |hashes|
  {
    if hashes != map[] {
      var first := Text.Least(hashes.Keys);
      var rest := hashes - {first};
      assert rest.Keys == hashes.Keys - {first};
      HashesFollowKeys(rest);
      var hs, keys := HashesInKeyOrder(hashes), Text.Sorted(hashes.Keys);
      var hs', keys' := HashesInKeyOrder(rest), Text.Sorted(rest.Keys);
      assert keys == [first] + keys';
      assert hs == [hashes[first]] + hs';
      forall i | 0 < i < |hs| ensures keys[i] in hashes && hs[i] == hashes[keys[i]] {
        assert hs[i] == hs'[i - 1] && keys[i] == keys'[i - 1];
      }
    }
  }

  /** Each document's hash, by key. */
  function DocumentHashes(docs: map<string, D.DocumentRecord>): map<string, Hashing.Hash> {
    map k | k in docs :: docs[k].hash
  }

  /** What `rehash` stores: `combine_hashes` of the document hashes in key
      order. */
  function StoreHash(docs: map<string, D.DocumentRecord>): Hashing.Hash {
    Hashing.Combined(HashesInKeyOrder(DocumentHashes(docs)))
  }

  /** The value of a `MemoryStore`, as a clone of it holds. */
  datatype StoreRecord = StoreRecord(
    documents: map<string, D.DocumentRecord>, provenance: map<nat, seq<string>>, storeHash: Hashing.Hash)

  /** Every document is filed under its own key. */
  predicate Valid(s: StoreRecord) {
    forall k :: k in s.documents ==> s.documents[k].key == k
  }

  /** The store hash is the hash of the documents. */
  predicate Hashed(s: StoreRecord) {
    s.storeHash == StoreHash(s.documents)
  }

  /** `MemoryStore::new`: nothing stored, the zero hash. */
  function EmptyRecord(): (s: StoreRecord)
    ensures s.documents == map[] && s.provenance == map[] && s.storeHash == Hashing.Zero() && Valid(s)
  {
    StoreRecord(map[], map[], Hashing.Zero())
  }

  /** Two entries logged under one event, starting from nothing, are kept
      in logging order. */
  lemma LoggedTwice(event: nat, x: string, y: string)
    ensures Seqs.Push(Seqs.Push(map[], event, x), event, y)[event] == [x, y]
  {
    assert Seqs.Push(map[], event, x)[event] == [x];
  }

  /** `write` on values: the key is logged under the document's causal
      event; a new key is inserted and reports `Merged`; an existing one is
      merged with `Document::merge`; the store is rehashed. */
  function WriteRecord(s: StoreRecord, doc: D.DocumentRecord): (r: (StoreRecord, WriteResult))
    ensures r.0.provenance == Seqs.Push(s.provenance, doc.causalEvent, doc.key)
    ensures doc.key !in s.documents ==> r.1.result == D.Merged && r.0.documents == s.documents[doc.key := doc]
    ensures doc.key in s.documents ==>
      var merged := D.MergeRecord(s.documents[doc.key], doc);
      r.1.result == merged.1 && r.0.documents == s.documents[doc.key := merged.0]
    ensures Hashed(r.0) && r.1.key == doc.key && r.1.storeHash == r.0.storeHash
  {
    var provenance := Seqs.Push(s.provenance, doc.causalEvent, doc.key);
    if doc.key in s.documents then
      var merged := D.MergeRecord(s.documents[doc.key], doc);
      var documents := s.documents[doc.key := merged.0];
      (StoreRecord(documents, provenance, StoreHash(documents)), WriteResult(doc.key, merged.1, StoreHash(documents)))
    else
      var documents := s.documents[doc.key := doc];
      (StoreRecord(documents, provenance, StoreHash(documents)), WriteResult(doc.key, D.Merged, StoreHash(documents)))
  }

  /** `delete` on values: a present key is removed, logged as `!key` and the
      store rehashed; an absent key changes nothing. */
  function DeleteRecord(s: StoreRecord, key: string, event: nat): (r: (StoreRecord, DeleteResult))
    ensures r.1 == Deleted <==> key in s.documents
    ensures r.1 == NotFound ==> r.0 == s
    ensures r.1 == Deleted ==>
      r.0.documents == s.documents - {key} && r.0.provenance == Seqs.Push(s.provenance, event, "!" + key) && Hashed(r.0)
  {
    if key in s.documents then
      var documents := s.documents - {key};
      (StoreRecord(documents, Seqs.Push(s.provenance, event, "!" + key), StoreHash(documents)), Deleted)
    else (s, NotFound)
  }

  /** Writing keeps every document under its own key, and in a valid store
      a write never meets a key mismatch: it is either a fresh insert or a
      last-writer-wins merge. */
  lemma WriteKeepsValid(s: StoreRecord, doc: D.DocumentRecord)
    requires Valid(s)
    ensures var (t, w) := WriteRecord(s, doc);
      Valid(t) && w.result != D.KeyMismatch
      && (w.result == D.Merged <==> doc.key !in s.documents || doc.causalEvent > s.documents[doc.key].causalEvent)
      && (w.result == D.Merged ==> t.documents[doc.key].value == doc.value && t.documents[doc.key].causalEvent == doc.causalEvent)
      && (w.result == D.Unchanged ==> t.documents == s.documents)
  {
    var (t, w) := WriteRecord(s, doc);
    if doc.key in s.documents && w.result == D.Unchanged {
      assert t.documents == s.documents;
    }
  }

  /** Deleting keeps the store valid, and a deleted key reads as absent. */
  lemma DeleteKeepsValid(s: StoreRecord, key: string, event: nat)
    requires Valid(s)
    ensures Valid(DeleteRecord(s, key, event).0) && key !in DeleteRecord(s, key, event).0.documents
  {
  }

  /** Writing two new documents with different keys gives the same
      documents and the same store hash in either order: the hash follows
      key order, not write order. */
  lemma WritesCommute(s: StoreRecord, a: D.DocumentRecord, b: D.DocumentRecord)
    requires a.key != b.key && a.key !in s.documents && b.key !in s.documents
    ensures var ab := WriteRecord(WriteRecord(s, a).0, b).0;
      var ba := WriteRecord(WriteRecord(s, b).0, a).0;
      ab.documents == ba.documents && ab.storeHash == ba.storeHash
  {
    var ab := WriteRecord(WriteRecord(s, a).0, b).0;
    var ba := WriteRecord(WriteRecord(s, b).0, a).0;
    UpdatesCommute(s.documents, a.key, a, b.key, b);
  }

  /** Two updates of different keys can be made in either order. */
  lemma UpdatesCommute<K, V>(m: map<K, V>, a: K, x: V, b: K, y: V)
    requires a != b
    ensures m[a := x][b := y] == m[b := y][a := x]
  {
  }

  /** `MemoryStore`, changed in place by `write` and `delete`. */
  class MemoryStore {
    var documents: map<string, D.DocumentRecord>
    var provenance: map<nat, seq<string>>
    var storeHash: Hashing.Hash

    function Record(): StoreRecord
      reads this
    {
      StoreRecord(documents, provenance, storeHash)
    }

    /** `MemoryStore::new` (and `Default`). */
    constructor ()
      ensures Record() == EmptyRecord()
    {
      documents := map[];
      provenance := map[];
      storeHash := Hashing.Zero();
    }

    /** `write`. */
    method Write(doc: D.DocumentRecord) returns (r: WriteResult)
      modifies this
      ensures (Record(), r) == WriteRecord(old(Record()), doc)
    {
      var key := doc.key;
      provenance := Seqs.Push(provenance, doc.causalEvent, key);
      var result;
      if key in documents {
        var merged;
        merged, result := D.MergeRecord(documents[key], doc).0, D.MergeRecord(documents[key], doc).1;
        documents := documents[key := merged];
      } else {
        documents := documents[key := doc];
        result := D.Merged;
      }
      Rehash();
      r := WriteResult(key, result, storeHash);
    }

    /** `read`. */
    function Read(key: string): (r: Option<D.DocumentRecord>)
      reads this
      ensures r.Some? <==> key in documents
      ensures r.Some? ==> r.value == documents[key]
    {
      if key in documents then Some(documents[key]) else None
    }

    /** `delete`. */
    method Delete(key: string, causalEvent: nat) returns (r: DeleteResult)
      modifies this
      ensures (Record(), r) == DeleteRecord(old(Record()), key, causalEvent)
    {
      if key in documents {
        documents := documents - {key};
        provenance := Seqs.Push(provenance, causalEvent, "!" + key);
        Rehash();
        r := Deleted;
      } else {
        r := NotFound;
      }
    }

    /** `keys`: the stored keys in ascending order. */
    function Keys(): (r: seq<string>)
      reads this
      ensures Text.Increasing(r)
      ensures |r| == |documents| && forall k :: k in r <==> k in documents
    {
      Text.Sorted(documents.Keys)
    }

    /** `len`: the number of listed keys. */
    function Len(): (n: nat)
      reads this
      ensures n == |Keys()|
    {
      |documents|
    }

    /** `is_empty`: no key is listed. */
    function IsEmpty(): (b: bool)
      reads this
      ensures b <==> Keys() == []
    {
      |documents| == 0
    }

    /** `keys_for_event`: the logged entries of an event in logging order,
        or none. */
    function KeysForEvent(event: nat): (r: seq<string>)
      reads this
      ensures event in provenance ==> r == provenance[event]
      ensures event !in provenance ==> r == []
    {
      if event in provenance then provenance[event] else []
    }

    /** `rehash`: the document hashes in key order, combined. */
    method Rehash()
      modifies this
      ensures storeHash == StoreHash(documents)
      ensures documents == old(documents) && provenance == old(provenance)
    {
      var hashes := HashesInKeyOrder(DocumentHashes(documents));
      storeHash := Hashing.CombineHashes(hashes);
    }

    /** `snapshot`: each key's document hash, and the store hash. */
    function Snapshot(): (s: StoreSnapshot)
      reads this
      ensures s.documentHashes.Keys == documents.Keys
      ensures forall k :: k in documents ==> s.documentHashes[k] == documents[k].hash
      ensures s.storeHash == storeHash
    {
      StoreSnapshot(DocumentHashes(documents), storeHash)
    }

    /** `state_at_event`: a copy of the current store, whatever the event. */
    method StateAtEvent(event: nat) returns (copy: MemoryStore)
      ensures fresh(copy) && copy.Record() == Record()
    {
      copy := new MemoryStore();
      copy.documents, copy.provenance, copy.storeHash := documents, provenance, storeHash;
    }
  }

  /** A snapshot of a store rehashed since its last change carries enough
      to recompute its store hash. */
  lemma SnapshotRecomputesHash(store: MemoryStore)
    requires Hashed(store.Record())
    ensures store.Snapshot().storeHash == Hashing.Combined(HashesInKeyOrder(store.Snapshot().documentHashes))
  {
  }

  /** The write-read and delete unit tests: one document is stored and
      reads back, then deleting it empties the store. */
  method WriteReadDeleteExample() returns (len: nat, read: Option<D.DocumentRecord>, deleted: DeleteResult, lenAfter: nat)
    ensures len == 1 && read.Some? && read.value.value == D.String("value")
    ensures deleted == Deleted && lenAfter == 0
  {
    var store := new MemoryStore();
    var _ := store.Write(D.NewRecord("test", D.String("value"), 1));
    len := store.Len();
    read := store.Read("test");
    deleted := store.Delete("test", 2);
    lenAfter := store.Len();
  }

  /** The provenance unit test: two writes under event 1 are logged in
      order. */
  method ProvenanceExample() returns (logged: seq<string>)
    ensures logged == ["key1", "key2"]
  {
    var store := new MemoryStore();
    var first, second := D.NewRecord("key1", D.Integer(10), 1), D.NewRecord("key2", D.Integer(20), 1);
    var _ := store.Write(first);
    var _ := store.Write(second);
    LoggedTwice(1, first.key, second.key);
    logged := store.KeysForEvent(1);
  }
}
