/** Deterministic queries over a memory store
    (crates/oracle_omen_memory/src/query.rs): keep the documents that pass
    every filter, in ascending key order, sort them, then truncate. */
module MemoryQuery {
  import opened Wrappers
  import Text
  import Seqs
  import D = MemoryDocument
  import S = MemoryStore

  /** `QueryError`. `execute` never returns one. */
  datatype QueryError =
    | InvalidQuery(msg: string)
    | NotFound(key: string)
    | TypeMismatch(expected: string, found: string)

  /** `QueryResultItem`. */
  datatype QueryResultItem = QueryResultItem(key: string, value: D.DocumentValue, event: nat)

  /** `QueryResultItem::from_document`: the key the store files the document
      under, its value and its causal event. */
  function FromDocument(key: string, doc: D.DocumentRecord): (item: QueryResultItem)
    ensures item.key == key && item.value == doc.value && item.event == doc.causalEvent
  {
    QueryResultItem(key, doc.value, doc.causalEvent)
  }

  /** `QueryOrder`. */
  datatype QueryOrder = Key | KeyDesc | Event

  /** `Filter`; a `Custom` filter is a total predicate on items. */
  datatype Filter =
    | KeyEquals(key: string)
    | KeyPrefix(prefix: string)
    | TypeEquals(typeName: string)
    | Custom(pred: QueryResultItem -> bool)

  /** `Filter::matches`. */
  predicate Matches(f: Filter, item: QueryResultItem) {
    match f
    case KeyEquals(k) => item.key == k
    case KeyPrefix(p) => Text.StartsWith(item.key, p)
    case TypeEquals(t) => D.TypeName(item.value) == t
    case Custom(pred) => pred(item)
  }

  /** A type filter never matches a name that is not one of the eight type
      names, and matches exactly the values of one variant otherwise. */
  lemma TypeFilterSelectsVariant(t: string, a: QueryResultItem, b: QueryResultItem)
    requires Matches(TypeEquals(t), a)
    ensures t in D.TYPE_NAMES
    ensures Matches(TypeEquals(t), b) <==> D.TypeName(b.value) == D.TypeName(a.value)
  {
    D.TypeNameIdentifiesVariant(a.value, b.value);
  }

  /** `matches_filters`: every filter holds (vacuously with none). */
  predicate MatchesAll(filters: seq<Filter>, item: QueryResultItem) {
    forall i :: 0 <= i < |filters| ==> Matches(filters[i], item)
  }

  /** The clone of a `Custom` filter, as written: a key filter on a
      sentinel key. */
  function CloneAsWritten(f: Filter): (g: Filter)
    ensures !f.Custom? ==> g == f
    ensures f.Custom? ==> g == KeyEquals("__uncloneable_filter__")
  {
    if f.Custom? then KeyEquals("__uncloneable_filter__") else f
  }

  /** The clone of a `Custom` filter as written is meant to match nothing,
      yet it matches the document filed under the sentinel key. */
  lemma CloneAsWrittenMatchesSentinel(pred: QueryResultItem -> bool, value: D.DocumentValue, event: nat)
    ensures Matches(CloneAsWritten(Custom(pred)), QueryResultItem("__uncloneable_filter__", value, event))
  {
  }

  /** `Filter::clone`, as its comment intends: key, prefix and type filters
      are copied, and a `Custom` filter, whose closure cannot be copied,
      becomes a filter that rejects every item. */
  function CloneFilter(f: Filter): (g: Filter)
    ensures !f.Custom? ==> g == f
    ensures forall item :: !f.Custom? ==> (Matches(g, item) <==> Matches(f, item))
    ensures forall item :: f.Custom? ==> !Matches(g, item)
  {
    if f.Custom? then Custom(item => false) else f
  }

  /** `QueryBuilder` without its store reference: filters in the order
      they were added, the ordering and the optional limit. */
  datatype Query = Query(filters: seq<Filter>, order: QueryOrder, limit: Option<nat>)

  /** `QueryBuilder::new`: no filters, key order, no limit. */
  function NewQuery(): (q: Query)
    ensures q.filters == [] && q.order == Key && q.limit == None
  {
    Query([], Key, None)
  }

  /** `filter`: appends one filter. */
  function AddFilter(q: Query, f: Filter): (q': Query)
    ensures |q'.filters| == |q.filters| + 1 && q'.filters[..|q.filters|] == q.filters
    ensures forall item :: MatchesAll(q'.filters, item) <==> MatchesAll(q.filters, item) && Matches(f, item)
    ensures q'.order == q.order && q'.limit == q.limit
  {
    var q' := q.(filters := q.filters + [f]);
    assert forall item :: MatchesAll(q'.filters, item) <==> MatchesAll(q.filters, item) && Matches(f, item) by {
      forall item ensures MatchesAll(q'.filters, item) <==> MatchesAll(q.filters, item) && Matches(f, item) {
        if MatchesAll(q.filters, item) && Matches(f, item) {
          forall i | 0 <= i < |q'.filters| ensures Matches(q'.filters[i], item) {
            if i < |q.filters| { assert q'.filters[i] == q.filters[i]; }
          }
        }
        if MatchesAll(q'.filters, item) {
          assert Matches(q'.filters[|q.filters|], item);
          forall i | 0 <= i < |q.filters| ensures Matches(q.filters[i], item) {
            assert q'.filters[i] == q.filters[i];
          }
        }
      }
    }
    q'
  }

  /** `order_by`: replaces the ordering. */
  function OrderBy(q: Query, order: QueryOrder): (q': Query)
    ensures q'.order == order && q'.filters == q.filters && q'.limit == q.limit
  {
    q.(order := order)
  }

  /** `limit`: sets the limit, replacing an earlier one. */
  function Limit(q: Query, n: nat): (q': Query)
    ensures q'.limit == Some(n) && q'.filters == q.filters && q'.order == q.order
  {
    q.(limit := Some(n))
  }

  /** An item the query may return: a stored document, under its own key,
      that passes every filter. */
  predicate Selected(docs: map<string, D.DocumentRecord>, filters: seq<Filter>, x: QueryResultItem) {
    x.key in docs && x == FromDocument(x.key, docs[x.key]) && MatchesAll(filters, x)
  }

  /** The `filter_map`/`filter` pipeline over a list of keys. */
  function Collected(docs: map<string, D.DocumentRecord>, keys: seq<string>, filters: seq<Filter>): seq<QueryResultItem>
    decreases |keys|
  {
    if keys == [] then []
    else
      var k := keys[|keys| - 1];
      Collected(docs, keys[..|keys| - 1], filters)
        + (if k in docs && MatchesAll(filters, FromDocument(k, docs[k])) then [FromDocument(k, docs[k])] else [])
  }

  lemma {:induction false} CollectedMembers(docs: map<string, D.DocumentRecord>, keys: seq<string>, filters: seq<Filter>, x: QueryResultItem)
    ensures x in Collected(docs, keys, filters) <==> x.key in keys && Selected(docs, filters, x)
    decreases |keys|
  {
    if keys != [] {
      var init := keys[..|keys| - 1];
      CollectedMembers(docs, init, filters, x);
      assert keys == init + [keys[|keys| - 1]];
    }
  }

  predicate KeysIncreasing(items: seq<QueryResultItem>) {
    forall i, j :: 0 <= i < j < |items| ==> Text.Less(items[i].key, items[j].key)
  }

  predicate KeysDecreasing(items: seq<QueryResultItem>) {
    forall i, j :: 0 <= i < j < |items| ==> Text.Less(items[j].key, items[i].key)
  }

  /** Filtering an ascending list of keys keeps the items in ascending key
      order. */
  lemma {:induction false} CollectedIncreasing(docs: map<string, D.DocumentRecord>, keys: seq<string>, filters: seq<Filter>)
    requires Text.Increasing(keys)
    ensures KeysIncreasing(Collected(docs, keys, filters))
    decreases |keys|
  {
    if keys != [] {
      var init, last := keys[..|keys| - 1], keys[|keys| - 1];
      assert Text.Increasing(init);
      CollectedIncreasing(docs, init, filters);
      var before := Collected(docs, init, filters);
      forall i | 0 <= i < |before| ensures Text.Less(before[i].key, last) {
        CollectedMembers(docs, init, filters, before[i]);
      }
    }
  }

  /** The items `execute` collects before sorting: the selected documents in
      ascending key order. */
  function Candidates(docs: map<string, D.DocumentRecord>, filters: seq<Filter>): (r: seq<QueryResultItem>)
    ensures KeysIncreasing(r)
    ensures forall x :: x in r <==> Selected(docs, filters, x)
  {
    var keys := Text.Sorted(docs.Keys);
    CollectedIncreasing(docs, keys, filters);
    var r := Collected(docs, keys, filters);
    assert forall x :: x in r <==> Selected(docs, filters, x) by {
      forall x ensures x in r <==> Selected(docs, filters, x) {
        CollectedMembers(docs, keys, filters, x);
      }
    }
    r
  }

  /** Items ordered by causal event, ties by ascending key. */
  predicate Before(a: QueryResultItem, b: QueryResultItem) {
    a.event < b.event || (a.event == b.event && Text.Less(a.key, b.key))
  }

  predicate EventOrdered(items: seq<QueryResultItem>) {
    forall i, j :: 0 <= i < j < |items| ==> Before(items[i], items[j])
  }

  /** One step of a stable sort by event: `x` goes after every item whose
      event is not later than its own. */
  function InsertByEvent(s: seq<QueryResultItem>, x: QueryResultItem): (r: seq<QueryResultItem>)
    ensures multiset(r) == multiset(s) + multiset{x}
    decreases |s|
  {
    if s == [] || s[|s| - 1].event <= x.event then s + [x]
    else
      var init := s[..|s| - 1];
      assert s == init + [s[|s| - 1]];
      InsertByEvent(init, x) + [s[|s| - 1]]
  }

  /** `sort_by` on the causal event: Rust's sort is stable, so items with
      equal events keep their relative order. */
  function SortByEvent(items: seq<QueryResultItem>): (r: seq<QueryResultItem>)
    ensures multiset(r) == multiset(items)
    decreases |items|
  {
    if items == [] then []
    else
      var init := items[..|items| - 1];
      assert items == init + [items[|items| - 1]];
      InsertByEvent(SortByEvent(init), items[|items| - 1])
  }

  lemma {:induction false} InsertKeepsOrder(s: seq<QueryResultItem>, x: QueryResultItem)
    requires EventOrdered(s)
    requires forall y :: y in s ==> Text.Less(y.key, x.key)
    ensures EventOrdered(InsertByEvent(s, x))
    decreases |s|
  {
    if s == [] || s[|s| - 1].event <= x.event {
      var r := s + [x];
      forall i | 0 <= i < |s| ensures Before(s[i], x) {
        assert s[i] in s;
        if i < |s| - 1 { assert Before(s[i], s[|s| - 1]); }
      }
      assert forall i, j :: 0 <= i < j < |r| ==> Before(r[i], r[j]) by {
        forall i, j | 0 <= i < j < |r| ensures Before(r[i], r[j]) {
          if j < |s| { assert r[i] == s[i] && r[j] == s[j]; }
        }
      }
    } else {
      var init, last := s[..|s| - 1], s[|s| - 1];
      forall y | y in init ensures Text.Less(y.key, x.key) { assert y in s; }
      InsertKeepsOrder(init, x);
      var head := InsertByEvent(init, x);
      forall z | z in head ensures Before(z, last) {
        assert z in multiset(head);
        if z != x {
          assert z in multiset(init);
          var k :| 0 <= k < |init| && init[k] == z;
          assert s[k] == z;
        }
      }
      var r := head + [last];
      forall i, j | 0 <= i < j < |r| ensures Before(r[i], r[j]) {
        if j == |head| { assert r[i] in head; } else { assert r[i] == head[i] && r[j] == head[j]; }
      }
    }
  }

  /** Sorting by event an item list in ascending key order orders it by
      event, ties by ascending key. */
  lemma {:induction false} SortByEventOrdered(items: seq<QueryResultItem>)
    requires KeysIncreasing(items)
    ensures EventOrdered(SortByEvent(items))
    decreases |items|
  {
    if items != [] {
      var init, last := items[..|items| - 1], items[|items| - 1];
      assert KeysIncreasing(init);
      SortByEventOrdered(init);
      var sorted := SortByEvent(init);
      forall y | y in sorted ensures Text.Less(y.key, last.key) {
        assert y in multiset(init);
        var k :| 0 <= k < |init| && init[k] == y;
        assert items[k] == y;
      }
      InsertKeepsOrder(sorted, last);
    }
  }

  /** The ordering step of `execute`. The collected items are already in
      ascending key order, so sorting them by key leaves them as they are
      and sorting by descending key reverses them (keys are distinct). */
  function Ordered(items: seq<QueryResultItem>, order: QueryOrder): (r: seq<QueryResultItem>)
    requires KeysIncreasing(items)
    ensures multiset(r) == multiset(items)
    ensures order == Key ==> KeysIncreasing(r)
    ensures order == KeyDesc ==> KeysDecreasing(r)
    ensures order == Event ==> EventOrdered(r)
  {
    match order
    case Key => items
    case KeyDesc =>
      var r := Seqs.Reverse(items);
      assert multiset(r) == multiset(items) by { ReverseSameElements(items); }
      r
    case Event =>
      SortByEventOrdered(items);
      SortByEvent(items)
  }

  lemma {:induction false} ReverseSameElements<T>(s: seq<T>)
    ensures multiset(Seqs.Reverse(s)) == multiset(s)
    decreases |s|
  {
    if s != [] {
      ReverseSameElements(s[1..]);
      assert s == [s[0]] + s[1..];
    }
  }

  /** `truncate`: keeps the first `n` items, or all of them when there are
      fewer. */
  function Truncated(items: seq<QueryResultItem>, limit: Option<nat>): (r: seq<QueryResultItem>)
    ensures limit.None? ==> r == items
    ensures limit.Some? ==> |r| == Seqs.Min(limit.value, |items|) && r == items[..|r|]
  {
    match limit
    case None => items
    case Some(n) => if n < |items| then items[..n] else items
  }

  /** The result list of a query on a document map. */
  function Results(docs: map<string, D.DocumentRecord>, q: Query): (r: seq<QueryResultItem>)
    ensures forall x :: x in r ==> Selected(docs, q.filters, x)
    ensures q.order == Key ==> KeysIncreasing(r)
    ensures q.order == KeyDesc ==> KeysDecreasing(r)
    ensures q.order == Event ==> EventOrdered(r)
  {
    var candidates := Candidates(docs, q.filters);
    var ordered := Ordered(candidates, q.order);
    var r := Truncated(ordered, q.limit);
    assert forall x :: x in r ==> Selected(docs, q.filters, x) by {
      forall x | x in r ensures Selected(docs, q.filters, x) {
        assert x in ordered;
        assert x in multiset(candidates);
      }
    }
    r
  }

  /** `execute`: reads the store; always `Ok`. */
  function Execute(store: S.MemoryStore, q: Query): (r: Result<seq<QueryResultItem>, QueryError>)
    reads store
    ensures r.Ok?
    ensures forall x :: x in r.value ==> Selected(store.documents, q.filters, x)
    ensures q.order == Key ==> KeysIncreasing(r.value)
    ensures q.order == KeyDesc ==> KeysDecreasing(r.value)
    ensures q.order == Event ==> EventOrdered(r.value)
  {
    Ok(Results(store.documents, q))
  }

  /** Without a limit a query returns every selected document, whatever
      the ordering. */
  lemma ExecuteComplete(store: S.MemoryStore, q: Query, x: QueryResultItem)
    requires q.limit == None
    ensures x in Execute(store, q).value <==> Selected(store.documents, q.filters, x)
  {
    var candidates := Candidates(store.documents, q.filters);
    var ordered := Ordered(candidates, q.order);
    if x in candidates {
      assert x in multiset(ordered);
    }
  }

  /** A query with no filters and no limit returns every document, each
      once. */
  lemma ExecuteReturnsAll(store: S.MemoryStore, q: Query)
    requires q.filters == [] && q.limit == None
    ensures |Execute(store, q).value| == |store.documents|
    ensures forall k :: k in store.documents ==> FromDocument(k, store.documents[k]) in Execute(store, q).value
  {
    var docs := store.documents;
    var keys := Text.Sorted(docs.Keys);
    CollectedAll(docs, keys);
    var candidates := Candidates(docs, q.filters);
    var ordered := Ordered(candidates, q.order);
    assert |ordered| == |multiset(ordered)| == |multiset(candidates)| == |candidates|;
    assert Execute(store, q).value == ordered;
    forall k | k in docs ensures FromDocument(k, docs[k]) in Execute(store, q).value {
      ExecuteComplete(store, q, FromDocument(k, docs[k]));
    }
  }

  lemma {:induction false} CollectedAll(docs: map<string, D.DocumentRecord>, keys: seq<string>)
    requires forall k :: k in keys ==> k in docs
    ensures |Collected(docs, keys, [])| == |keys|
    decreases |keys|
  {
    if keys != [] {
      CollectedAll(docs, keys[..|keys| - 1]);
      assert keys[|keys| - 1] in keys;
    }
  }

  /** A limit keeps the first `n` items of the unlimited result. */
  lemma ExecuteLimit(store: S.MemoryStore, q: Query, n: nat)
    ensures var all := Execute(store, q.(limit := None)).value;
      Execute(store, Limit(q, n)).value == all[..Seqs.Min(n, |all|)]
  {
  }

  /** `keys_sorted`: the store's keys, ascending. */
  function KeysSorted(store: S.MemoryStore): (r: seq<string>)
    reads store
    ensures Text.Increasing(r)
    ensures |r| == |store.documents| && forall k :: k in r <==> k in store.documents
  {
    store.Keys()
  }

  /** `all_sorted`: every key with its document's value, ascending by key
      (the sort after `keys()` leaves the list as it is). */
  function AllSorted(store: S.MemoryStore): (r: seq<(string, D.DocumentValue)>)
    reads store
    ensures |r| == |store.documents|
    ensures forall i :: 0 <= i < |r| ==> r[i].0 == store.Keys()[i]
    ensures forall i :: 0 <= i < |r| ==> r[i].0 in store.documents && r[i].1 == store.documents[r[i].0].value
  {
    var keys, docs := store.Keys(), store.documents;
    seq(|keys|, i requires 0 <= i < |keys| && keys[i] in docs => (keys[i], docs[keys[i]].value))
  }

  /** `all_sorted` lists each document once, in strictly ascending key
      order. */
  lemma AllSortedAscending(store: S.MemoryStore)
    ensures var r := AllSorted(store);
      (forall i, j :: 0 <= i < j < |r| ==> Text.Less(r[i].0, r[j].0))
      && forall k :: k in store.documents ==> exists i :: 0 <= i < |r| && r[i] == (k, store.documents[k].value)
  {
    var r, keys := AllSorted(store), store.Keys();
    forall k | k in store.documents ensures exists i :: 0 <= i < |r| && r[i] == (k, store.documents[k].value) {
      var i :| 0 <= i < |keys| && keys[i] == k;
      assert r[i] == (k, store.documents[k].value);
    }
  }
}
