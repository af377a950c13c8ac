/** Memory documents (crates/oracle_omen_memory/src/document.rs): keyed
    values with a causal event and a hash, merged as last-writer-wins
    registers. */
module MemoryDocument {
  import Text
  import Hashing

  /** `DocumentValue`. `Integer` is an `i64`; the model never computes with
      it. */
  datatype DocumentValue =
    | String(s: string)
    | Bytes(bytes: seq<Hashing.Byte>)
    | Integer(i: int)
    | Bool(b: bool)
    | Map(entries: map<string, DocumentValue>)
    | Vec(items: seq<DocumentValue>)
    | Null
    | Ref(h: Hashing.Hash)

  /** `type_name`. */
  function TypeName(v: DocumentValue): string {
    match v
    case String(_) => "string"
    case Bytes(_) => "bytes"
    case Integer(_) => "integer"
    case Bool(_) => "bool"
    case Map(_) => "map"
    case Vec(_) => "vec"
    case Null => "null"
    case Ref(_) => "ref"
  }

  /** The eight type names. */
  const TYPE_NAMES: set<string> := {"string", "bytes", "integer", "bool", "map", "vec", "null", "ref"}

  /** Every value has one of the eight names, and two values share a name
      exactly when they are the same variant. */
  lemma TypeNameIdentifiesVariant(a: DocumentValue, b: DocumentValue)
    ensures TypeName(a) in TYPE_NAMES
    ensures TypeName(a) == TypeName(b) <==>
              (a.String? == b.String? && a.Bytes? == b.Bytes? && a.Integer? == b.Integer? && a.Bool? == b.Bool?
               && a.Map? == b.Map? && a.Vec? == b.Vec? && a.Null? == b.Null?)
  {
    if a.String? != b.String? || a.Bytes? != b.Bytes? || a.Integer? != b.Integer? || a.Bool? != b.Bool?
      || a.Map? != b.Map? || a.Vec? != b.Vec? || a.Null? != b.Null?
    {
      assert TypeName(a)[0] != TypeName(b)[0] || |TypeName(a)| != |TypeName(b)|;
    }
  }

  /** `MergeResult`. */
  datatype MergeResult = Merged | Unchanged | KeyMismatch

  /** The serde form of a value: an externally tagged enum, maps as objects
      in ascending key order. */
  function ValueJson(v: DocumentValue): Hashing.Json
    decreases v
  {
    match v
    case String(s) => Hashing.JObj([Hashing.Field("String", Hashing.JStr(s))])
    case Bytes(bs) => Hashing.JObj([Hashing.Field("Bytes",
        Hashing.JArr(seq(|bs|, k requires 0 <= k < |bs| => Hashing.JInt(bs[k]))))])
    case Integer(i) => Hashing.JObj([Hashing.Field("Integer", Hashing.JInt(i))])
    case Bool(b) => Hashing.JObj([Hashing.Field("Bool", Hashing.JBool(b))])
    case Map(m) =>
      var keys := Text.Sorted(m.Keys);
      Hashing.JObj([Hashing.Field("Map",
        Hashing.JObj(seq(|keys|, k requires 0 <= k < |keys| => Hashing.Field(keys[k], ValueJson(m[keys[k]])))))])
    case Vec(items) => Hashing.JObj([Hashing.Field("Vec",
        Hashing.JArr(seq(|items|, k requires 0 <= k < |items| => ValueJson(items[k]))))])
    case Null => Hashing.JStr("Null")
    case Ref(h) => Hashing.JObj([Hashing.Field("Ref", Hashing.HashJson(h))])
  }

  /** The serde form of a version vector (a `BTreeMap<String, u64>`). */
  function VersionJson(version: map<string, nat>): Hashing.Json {
    var keys := Text.Sorted(version.Keys);
    Hashing.JObj(seq(|keys|, k requires 0 <= k < |keys| => Hashing.Field(keys[k], Hashing.JInt(version[keys[k]]))))
  }

  /** What `rehash` stores: the canonical hash of the tuple
      `(key, value, version, causal_event)`. */
  function DocumentHash(key: string, value: DocumentValue, version: map<string, nat>, causalEvent: nat): Hashing.Hash {
    Hashing.FromCanonical(Hashing.JArr([Hashing.JStr(key), ValueJson(value), VersionJson(version), Hashing.JInt(causalEvent)]))
  }

  /** The value of a `Document`, as the store and a clone hold it. */
  datatype DocumentRecord = DocumentRecord(
    key: string, value: DocumentValue, version: map<string, nat>, causalEvent: nat, hash: Hashing.Hash)

  /** The stored hash is the hash of the document's other fields. */
  predicate Consistent(d: DocumentRecord) {
    d.hash == DocumentHash(d.key, d.value, d.version, d.causalEvent)
  }

  /** `Document::new`: an empty version vector, then rehashed. */
  function NewRecord(key: string, value: DocumentValue, causalEvent: nat): (d: DocumentRecord)
    ensures d.key == key && d.value == value && d.causalEvent == causalEvent
    ensures d.version == map[] && Consistent(d)
  {
    DocumentRecord(key, value, map[], causalEvent, DocumentHash(key, value, map[], causalEvent))
  }

  /** `merge` on values: the document after merging `other` into `d`, and
      the merge result. */
  function MergeRecord(d: DocumentRecord, other: DocumentRecord): (r: (DocumentRecord, MergeResult))
    ensures r.1 == KeyMismatch <==> d.key != other.key
    ensures r.1 == Merged <==> d.key == other.key && other.causalEvent > d.causalEvent
    ensures r.1 != Merged ==> r.0 == d
    ensures r.1 == Merged ==> r.0.value == other.value && r.0.causalEvent == other.causalEvent && Consistent(r.0)
    ensures r.0.key == d.key && r.0.version == d.version
  {
    if d.key != other.key then (d, KeyMismatch)
    else if other.causalEvent > d.causalEvent then
      (d.(value := other.value, causalEvent := other.causalEvent,
          hash := DocumentHash(d.key, other.value, d.version, other.causalEvent)), Merged)
    else (d, Unchanged)
  }

  /** A merge keeps a document consistent, and after a same-key merge the
      causal event is the later of the two. */
  lemma MergeLatest(d: DocumentRecord, other: DocumentRecord)
    requires Consistent(d)
    ensures Consistent(MergeRecord(d, other).0)
    ensures d.key == other.key ==>
      MergeRecord(d, other).0.causalEvent == (if d.causalEvent < other.causalEvent then other.causalEvent else d.causalEvent)
  {
  }

  /** Merging the same document a second time changes nothing. */
  lemma MergeIdempotent(d: DocumentRecord, other: DocumentRecord)
    ensures var once := MergeRecord(d, other).0;
      MergeRecord(once, other).1 != Merged && MergeRecord(once, other).0 == once
  {
  }

  /** Two consistent copies with the same key and version vector converge
      when merged into each other, as long as their causal events differ. */
  lemma MergeConverges(a: DocumentRecord, b: DocumentRecord)
    requires Consistent(a) && Consistent(b)
    requires a.key == b.key && a.version == b.version && a.causalEvent != b.causalEvent
    ensures MergeRecord(a, b).0 == MergeRecord(b, a).0
  {
    var ab, ba := MergeRecord(a, b).0, MergeRecord(b, a).0;
    assert ab.hash == DocumentHash(ab.key, ab.value, ab.version, ab.causalEvent);
    assert ba.hash == DocumentHash(ba.key, ba.value, ba.version, ba.causalEvent);
  }

  /** On equal causal events each side keeps its own value, so two copies
      that disagree stay apart. */
  lemma TieKeepsOwnValue(a: DocumentRecord, b: DocumentRecord)
    requires a.key == b.key && a.causalEvent == b.causalEvent && a.value != b.value
    ensures MergeRecord(a, b) == (a, Unchanged) && MergeRecord(b, a) == (b, Unchanged)
    ensures MergeRecord(a, b).0.value != MergeRecord(b, a).0.value
  {
  }

  /** `Document`, changed in place by `merge`. */
  class Document {
    var key: string
    var value: DocumentValue
    var version: map<string, nat>
    var causalEvent: nat
    var hash: Hashing.Hash

    function Record(): DocumentRecord
      reads this
    {
      DocumentRecord(key, value, version, causalEvent, hash)
    }

    /** `Document::new`. */
    constructor (key: string, value: DocumentValue, causalEvent: nat)
      ensures Record() == NewRecord(key, value, causalEvent)
    {
      this.key := key;
      this.value := value;
      version := map[];
      this.causalEvent := causalEvent;
      new;
      Rehash();
    }

    /** `rehash`. */
    method Rehash()
      modifies this
      ensures Record() == old(Record()).(hash := DocumentHash(key, value, version, causalEvent))
      ensures Consistent(Record())
    {
      hash := DocumentHash(key, value, version, causalEvent);
    }

    /** `merge`: a later causal event from a document with the same key
        overwrites the value and the event and rehashes. */
    method Merge(other: DocumentRecord) returns (r: MergeResult)
      modifies this
      ensures (Record(), r) == MergeRecord(old(Record()), other)
    {
      if key != other.key {
        return KeyMismatch;
      }
      if other.causalEvent > causalEvent {
        value := other.value;
        causalEvent := other.causalEvent;
        Rehash();
        return Merged;
      }
      r := Unchanged;
    }
  }

  /** The merge unit tests: a later document wins, an earlier one is
      ignored, and a different key is refused. */
  method MergeExamples() returns (later: MergeResult, laterValue: DocumentValue, earlier: MergeResult,
                                  earlierValue: DocumentValue, mismatch: MergeResult)
    ensures later == Merged && laterValue == Integer(20)
    ensures earlier == Unchanged && earlierValue == Integer(20)
    ensures mismatch == KeyMismatch
  {
    var doc1 := new Document("key", Integer(10), 1);
    later := doc1.Merge(NewRecord("key", Integer(20), 2));
    laterValue := doc1.value;
    var doc3 := new Document("key", Integer(20), 2);
    earlier := doc3.Merge(NewRecord("key", Integer(10), 1));
    earlierValue := doc3.value;
    var doc5 := new Document("key1", Integer(10), 1);
    assert "key1"[3] != "key2"[3];
    mismatch := doc5.Merge(NewRecord("key2", Integer(20), 2));
  }
}
