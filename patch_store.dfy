/** Patch storage (crates/oracle_omen_patches/src/store.rs): patches with
    their lifecycle status keyed by id text, and signed patches keyed by
    content hash with an index from id text to hash. */
module PatchStore {
  import opened Wrappers
  import Text
  import Hashing
  import P = PatchDef

  /** `StoreError`. */
  datatype StoreError = AlreadyExists(key: string) | NotFound(key: string) | Corrupted(message: string)

  /** `Display for StoreError`. */
  function ErrorText(e: StoreError): string {
    match e
    case AlreadyExists(id) => "Already exists: " + id
    case NotFound(id) => "Not found: " + id
    case Corrupted(msg) => "Corrupted: " + msg
  }

  /** The contents of a `PatchStore`: id text to patch and status. */
  type Table = map<string, (P.Patch, P.PatchStatus)>

  /** The table and the result after `add_patch`. */
  function AddPatchResult(t: Table, id: string, patch: P.Patch, status: P.PatchStatus): (Table, Result<(), StoreError>) {
    if id in t then (t, Err(AlreadyExists(id)))
    else (t[id := (patch, status)], Ok(()))
  }

  /** The table and the result after `update_status`: the status is
      replaced and the patch kept. */
  function UpdateStatusResult(t: Table, id: string, status: P.PatchStatus): (Table, Result<(), StoreError>) {
    if id in t then (t[id := (t[id].0, status)], Ok(()))
    else (t, Err(NotFound(id)))
  }

  /** `add_patch` refuses a taken id and changes nothing; otherwise it
      stores the pair under the id and leaves every other entry alone. */
  lemma AddPatchEffect(t: Table, id: string, patch: P.Patch, status: P.PatchStatus, other: string)
    ensures var (t2, r) := AddPatchResult(t, id, patch, status);
      && (id in t ==> r == Err(AlreadyExists(id)) && t2 == t)
      && (id !in t ==> r.Ok? && t2.Keys == t.Keys + {id} && t2[id] == (patch, status))
      && (other != id && other in t ==> other in t2 && t2[other] == t[other])
  {
  }

  /** `update_status` on a stored id replaces only its status; on an
      unknown id it fails with `NotFound` and changes nothing. */
  lemma UpdateStatusEffect(t: Table, id: string, status: P.PatchStatus, other: string)
    ensures var (t2, r) := UpdateStatusResult(t, id, status);
      && (id in t ==> r.Ok? && t2.Keys == t.Keys && t2[id].0 == t[id].0 && t2[id].1 == status)
      && (id !in t ==> r == Err(NotFound(id)) && t2 == t)
      && (other != id && other in t ==> t2[other] == t[other])
  {
  }

  /** The statuses compared by variant alone, reasons ignored. */
  predicate SameVariant(a: P.PatchStatus, b: P.PatchStatus) {
    match (a, b)
    case (Proposed, Proposed) => true
    case (Tested, Tested) => true
    case (Audited, Audited) => true
    case (Approved, Approved) => true
    case (Applied, Applied) => true
    case (Rejected(_), Rejected(_)) => true
    case (RolledBack(_), RolledBack(_)) => true
    case _ => false
  }

  /** `SameVariant` is an equivalence that equality refines. */
  lemma SameVariantLaws(a: P.PatchStatus, b: P.PatchStatus, c: P.PatchStatus)
    ensures SameVariant(a, a)
    ensures SameVariant(a, b) ==> SameVariant(b, a)
    ensures SameVariant(a, b) && SameVariant(b, c) ==> SameVariant(a, c)
    ensures SameVariant(P.Rejected("x"), P.Rejected("y")) && !SameVariant(P.Applied, P.Approved)
  {
  }

  /** The patches stored under `keys` whose status has the variant of
      `status`, in the order of `keys`. */
  function WithStatus(t: Table, keys: seq<string>, status: P.PatchStatus): (r: seq<P.Patch>)
    requires forall k :: k in keys ==> k in t
  {
    if keys == [] then []
    else
      var last := keys[|keys| - 1];
      WithStatus(t, keys[..|keys| - 1], status) + (if SameVariant(t[last].1, status) then [t[last].0] else [])
  }

  /** A patch is selected exactly when one of the keys holds it with a
      status of the requested variant. */
  lemma {:induction false} WithStatusMembers(t: Table, keys: seq<string>, status: P.PatchStatus, x: P.Patch)
    requires forall k :: k in keys ==> k in t
    ensures x in WithStatus(t, keys, status) <==> exists k :: k in keys && t[k].0 == x && SameVariant(t[k].1, status)
  {
    if keys != [] {
      var init, last := keys[..|keys| - 1], keys[|keys| - 1];
      WithStatusMembers(t, init, status, x);
      assert keys == init + [last];
      if x in WithStatus(t, keys, status) && x !in WithStatus(t, init, status) {
        assert x == t[last].0 && SameVariant(t[last].1, status);
      }
    }
  }

  /** `PatchStore`. */
  class PatchStore {
    var patches: Table

    /** `PatchStore::new` (and `Default`). */
    constructor ()
      ensures patches == map[]
    {
      patches := map[];
    }

    /** `add_patch`. */
    method AddPatch(id: string, patch: P.Patch, status: P.PatchStatus) returns (r: Result<(), StoreError>)
      modifies this
      ensures (patches, r) == AddPatchResult(old(patches), id, patch, status)
    {
      if id in patches {
        return Err(AlreadyExists(id));
      }
      patches := patches[id := (patch, status)];
      r := Ok(());
    }

    /** `get_patch`. */
    function GetPatch(id: string): (r: Option<(P.Patch, P.PatchStatus)>)
      reads this
      ensures r.Some? <==> id in patches
      ensures r.Some? ==> r.value == patches[id]
    {
      if id in patches then Some(patches[id]) else None
    }

    /** `update_status`, as intended: the stored pair gets the new status.
        (The line as written assigns the pair to the patch it holds.) */
    method UpdateStatus(id: string, status: P.PatchStatus) returns (r: Result<(), StoreError>)
      modifies this
      ensures (patches, r) == UpdateStatusResult(old(patches), id, status)
    {
      if id in patches {
        var (patch, _) := patches[id];
        patches := patches[id := (patch, status)];
        r := Ok(());
      } else {
        r := Err(NotFound(id));
      }
    }

    /** `list_patches`: every entry, in ascending id order. */
    function ListPatches(): (r: seq<(string, P.Patch, P.PatchStatus)>)
      reads this
      ensures |r| == |patches|
      ensures forall i :: 0 <= i < |r| ==> r[i].0 == Text.Sorted(patches.Keys)[i]
      ensures forall i :: 0 <= i < |r| ==> r[i].0 in patches && (r[i].1, r[i].2) == patches[r[i].0]
    {
      var keys, table := Text.Sorted(patches.Keys), patches;
      seq(|keys|, i requires 0 <= i < |keys| && keys[i] in table => (keys[i], table[keys[i]].0, table[keys[i]].1))
    }

    /** `get_by_status`, as intended: the patches whose status has the
        requested variant, reasons ignored, in id order. (The filter as
        written is not valid Rust.) */
    function GetByStatus(status: P.PatchStatus): (r: seq<P.Patch>)
      reads this
      ensures forall x :: x in r <==> exists id :: id in patches && patches[id].0 == x && SameVariant(patches[id].1, status)
    {
      var keys, table := Text.Sorted(patches.Keys), patches;
      WithStatusMembersAll(table, keys, status);
      WithStatus(table, keys, status)
    }
  }

  /** `list_patches` lists each entry once, in strictly ascending id
      order. */
  lemma ListPatchesAscending(store: PatchStore)
    ensures var r := store.ListPatches();
      (forall i, j :: 0 <= i < j < |r| ==> Text.Less(r[i].0, r[j].0))
      && forall id :: id in store.patches ==> exists i :: 0 <= i < |r| && r[i] == (id, store.patches[id].0, store.patches[id].1)
  {
    var r, keys := store.ListPatches(), Text.Sorted(store.patches.Keys);
    forall id | id in store.patches
      ensures exists i :: 0 <= i < |r| && r[i] == (id, store.patches[id].0, store.patches[id].1)
    {
      var i :| 0 <= i < |keys| && keys[i] == id;
      assert r[i] == (id, store.patches[id].0, store.patches[id].1);
    }
  }

  lemma WithStatusMembersAll(t: Table, keys: seq<string>, status: P.PatchStatus)
    requires forall k :: k in keys <==> k in t
    ensures forall x :: x in WithStatus(t, keys, status) <==> exists id :: id in t && t[id].0 == x && SameVariant(t[id].1, status)
  {
    forall x ensures x in WithStatus(t, keys, status) <==> exists id :: id in t && t[id].0 == x && SameVariant(t[id].1, status) {
      WithStatusMembers(t, keys, status, x);
    }
  }

  /** The store unit tests: a patch added as `Proposed` reads back with that
      status, and adding it again fails with `AlreadyExists`. */
  method PatchStoreExample(patch: P.Patch) returns (first: Result<(), StoreError>, got: Option<(P.Patch, P.PatchStatus)>, second: Result<(), StoreError>)
    ensures first == Ok(()) && got == Some((patch, P.Proposed))
    ensures second == Err(AlreadyExists(P.IdText(patch.id)))
  {
    var store := new PatchStore();
    var id := P.IdText(patch.id);
    first := store.AddPatch(id, patch, P.Proposed);
    got := store.GetPatch(id);
    second := store.AddPatch(id, patch, P.Proposed);
  }

  // ---------------------------------------------------------------------
  // Signed patches

  /** The contents of a `SignedPatchStore`. */
  datatype SignedRecord = SignedRecord(patches: map<Hashing.Hash, P.SignedPatch>, byId: map<string, Hashing.Hash>)

  /** Every patch is stored under its own hash, and every id points at a
      stored patch with that id. */
  ghost predicate SignedValid(s: SignedRecord) {
    && (forall h :: h in s.patches ==> P.SignedHash(s.patches[h]) == h)
    && (forall id :: id in s.byId ==> s.byId[id] in s.patches && P.IdText(s.patches[s.byId[id]].patch.id) == id)
  }

  /** The record and the result after `add`. */
  function SignedAddResult(s: SignedRecord, sp: P.SignedPatch): (SignedRecord, Result<(), StoreError>) {
    var h := P.SignedHash(sp);
    if h in s.patches then (s, Err(AlreadyExists(Hashing.Hex(h))))
    else (SignedRecord(s.patches[h := sp], s.byId[P.IdText(sp.patch.id) := h]), Ok(()))
  }

  /** `get`. */
  function SignedGet(s: SignedRecord, h: Hashing.Hash): Option<P.SignedPatch> {
    if h in s.patches then Some(s.patches[h]) else None
  }

  /** `get_by_id`: through the id index, then the hash. */
  function SignedGetById(s: SignedRecord, id: string): Option<P.SignedPatch> {
    if id in s.byId && s.byId[id] in s.patches then Some(s.patches[s.byId[id]]) else None
  }

  /** `add` keeps the store valid. */
  lemma SignedAddKeepsValid(s: SignedRecord, sp: P.SignedPatch)
    requires SignedValid(s)
    ensures SignedValid(SignedAddResult(s, sp).0)
  {
    var h, id := P.SignedHash(sp), P.IdText(sp.patch.id);
    if h !in s.patches {
      var s2 := SignedAddResult(s, sp).0;
      forall k | k in s2.byId
        ensures s2.byId[k] in s2.patches && P.IdText(s2.patches[s2.byId[k]].patch.id) == k
      {
        if k != id {
          assert s2.byId[k] == s.byId[k] && s.byId[k] != h;
        }
      }
    }
  }

  /** A patch whose hash is taken is refused and nothing changes. */
  lemma SignedAddRefusesDuplicate(s: SignedRecord, sp: P.SignedPatch)
    requires P.SignedHash(sp) in s.patches
    ensures SignedAddResult(s, sp) == (s, Err(AlreadyExists(Hashing.Hex(P.SignedHash(sp)))))
  {
  }

  /** A patch with a new hash is found afterwards both by its hash and by
      its id, which now points at it even if an older patch with the same
      id was stored. */
  lemma SignedAddFinds(s: SignedRecord, sp: P.SignedPatch)
    requires P.SignedHash(sp) !in s.patches
    ensures var (s2, r) := SignedAddResult(s, sp);
      r.Ok? && SignedGet(s2, P.SignedHash(sp)) == Some(sp) && SignedGetById(s2, P.IdText(sp.patch.id)) == Some(sp)
  {
  }

  /** Adding a patch with a new hash leaves every other lookup as it was. */
  lemma SignedAddKeepsOthers(s: SignedRecord, sp: P.SignedPatch, h: Hashing.Hash, id: string)
    requires forall x :: x in s.byId ==> s.byId[x] in s.patches
    requires P.SignedHash(sp) !in s.patches
    ensures h != P.SignedHash(sp) ==> SignedGet(SignedAddResult(s, sp).0, h) == SignedGet(s, h)
    ensures id != P.IdText(sp.patch.id) ==> SignedGetById(SignedAddResult(s, sp).0, id) == SignedGetById(s, id)
  {
    var h0, id0 := P.SignedHash(sp), P.IdText(sp.patch.id);
    var s2 := SignedAddResult(s, sp).0;
    if id != id0 && id in s.byId {
      assert s2.byId[id] == s.byId[id] != h0;
    }
  }

  /** In a valid store, looking up by id finds a patch with that id. */
  lemma GetByIdSound(s: SignedRecord, id: string)
    requires SignedValid(s)
    ensures SignedGetById(s, id).Some? ==> P.IdText(SignedGetById(s, id).value.patch.id) == id
    ensures SignedGetById(s, id).Some? <==> id in s.byId
  {
  }

  /** A hash as the string whose code points are its bytes: `Text.Less`
      on these strings is the lexicographic byte order of `Ord for Hash`. */
  function ByteText(h: Hashing.Hash): (t: string)
    ensures |t| == |h| && forall i :: 0 <= i < |t| ==> t[i] as int == h[i]
  {
    seq(|h|, i requires 0 <= i < |h| => h[i] as char)
  }

  /** The byte text determines the hash. */
  function TextHash(t: string): (h: Hashing.Hash)
    requires |t| == Hashing.HASH_SIZE && forall i :: 0 <= i < |t| ==> t[i] as int < 256
    ensures ByteText(h) == t
  {
    seq(Hashing.HASH_SIZE, i requires 0 <= i < Hashing.HASH_SIZE => t[i] as int)
  }

  lemma ByteTextInverse(h: Hashing.Hash)
    ensures TextHash(ByteText(h)) == h
  {
  }

  /** The byte texts of the stored hashes. */
  function KeyTexts(s: SignedRecord): set<string> {
    set h | h in s.patches :: ByteText(h)
  }

  /** The stored hash with byte text `t`. */
  function HashOfText(s: SignedRecord, t: string): (h: Hashing.Hash)
    requires t in KeyTexts(s)
    ensures h in s.patches && ByteText(h) == t
  {
    var h0 :| h0 in s.patches && ByteText(h0) == t;
    ByteTextInverse(h0);
    TextHash(t)
  }

  /** `list`: the stored signed patches in ascending hash order, the
      iteration order of the `BTreeMap`. */
  function SignedList(s: SignedRecord): (r: seq<P.SignedPatch>)
    ensures |r| == |Text.Sorted(KeyTexts(s))|
    ensures forall i :: 0 <= i < |r| ==> r[i] == s.patches[HashOfText(s, Text.Sorted(KeyTexts(s))[i])]
  {
    var texts := Text.Sorted(KeyTexts(s));
    seq(|texts|, i requires 0 <= i < |texts| && texts[i] in KeyTexts(s) => s.patches[HashOfText(s, texts[i])])
  }

  /** In a valid store `list` is in strictly ascending order of the
      patches' hashes. */
  lemma SignedListAscending(s: SignedRecord)
    requires SignedValid(s)
    ensures var r := SignedList(s);
      forall i, j :: 0 <= i < j < |r| ==> Text.Less(ByteText(P.SignedHash(r[i])), ByteText(P.SignedHash(r[j])))
  {
  }

  /** `list` holds every stored signed patch and nothing else. */
  lemma SignedListMembers(s: SignedRecord)
    ensures forall sp :: sp in SignedList(s) <==> sp in s.patches.Values
  {
    var r, texts := SignedList(s), Text.Sorted(KeyTexts(s));
    forall sp | sp in s.patches.Values ensures sp in r {
      var h :| h in s.patches && s.patches[h] == sp;
      assert ByteText(h) in KeyTexts(s);
      var i :| 0 <= i < |texts| && texts[i] == ByteText(h);
      ByteTextInverse(h);
      assert r[i] == sp;
    }
  }

  /** `SignedPatchStore`. */
  class SignedPatchStore {
    var patches: map<Hashing.Hash, P.SignedPatch>
    var byId: map<string, Hashing.Hash>

    function Record(): SignedRecord
      reads this
    {
      SignedRecord(patches, byId)
    }

    /** `SignedPatchStore::new` (and `Default`). */
    constructor ()
      ensures Record() == SignedRecord(map[], map[])
    {
      patches, byId := map[], map[];
    }

    /** `add`: keyed by the patch hash; the id index is set to it. */
    method Add(sp: P.SignedPatch) returns (r: Result<(), StoreError>)
      modifies this
      ensures (Record(), r) == SignedAddResult(old(Record()), sp)
    {
      var h := P.SignedHash(sp);
      if h in patches {
        return Err(AlreadyExists(Hashing.Hex(h)));
      }
      byId := byId[P.IdText(sp.patch.id) := h];
      patches := patches[h := sp];
      r := Ok(());
    }

    /** `get`. */
    function Get(h: Hashing.Hash): (r: Option<P.SignedPatch>)
      reads this
      ensures r == SignedGet(Record(), h)
      ensures r.Some? <==> h in patches
    {
      if h in patches then Some(patches[h]) else None
    }

    /** `get_by_id`. */
    function GetById(id: string): (r: Option<P.SignedPatch>)
      reads this
      ensures r == SignedGetById(Record(), id)
    {
      if id in byId && byId[id] in patches then Some(patches[byId[id]]) else None
    }

    /** `list`. */
    function List(): (r: seq<P.SignedPatch>)
      reads this
      ensures r == SignedList(Record())
    {
      SignedList(Record())
    }
  }

  /** The signed store unit test: after adding a signed patch it is listed
      and found again by its hash. */
  method SignedStoreExample(sp: P.SignedPatch) returns (added: Result<(), StoreError>, listed: seq<P.SignedPatch>, got: Option<P.SignedPatch>)
    ensures added == Ok(()) && got == Some(sp)
    ensures forall x :: x in listed <==> x == sp
  {
    var store := new SignedPatchStore();
    added := store.Add(sp);
    listed := store.List();
    SignedListMembers(store.Record());
    got := store.Get(P.SignedHash(sp));
    assert store.patches.Values == {sp} by {
      assert store.patches == map[P.SignedHash(sp) := sp];
    }
  }
}
