/** The transaction store of the App component, `transactionsMap`: a JavaScript `Map` from
    transaction id to transaction. A `Map` iterates in insertion order and `Map.set` on a key
    already present keeps that key's position, so the store is the ids in arrival order
    together with the map itself. */
module Store {
  import opened Types

  datatype TransactionMap = TransactionMap(order: seq<string>, entries: map<string, Transaction>)
  {
    /** Every id appears once in `order`, exactly the ids of `entries` appear there, and each
        transaction is stored under its own id. */
    ghost predicate Valid() {
      && (forall i, j | 0 <= i < j < |order| :: order[i] != order[j])
      && (forall k :: k in order <==> k in entries)
      && (forall k | k in entries :: entries[k].id == k)
    }
  }

  /** `new Map()`, the store's initial value. */
  const EmptyMap: TransactionMap := TransactionMap([], map[])

  function Lookup(m: TransactionMap, id: string): Option<Transaction> {
    if id in m.entries then Some(m.entries[id]) else None
  }

  /** The ids of a batch. */
  function Ids(batch: seq<Transaction>): set<string> {
    set t | t in batch :: t.id
  }

  /** `Array.from(transactionsMap.values())`: the stored transactions in insertion order. */
  function Values(m: TransactionMap): (r: seq<Transaction>)
    requires m.Valid()
    ensures |r| == |m.order|
    ensures forall i | 0 <= i < |r| :: r[i].id == m.order[i] && r[i] == m.entries[r[i].id]
    ensures forall t | t in r :: t.id in m.entries && m.entries[t.id] == t
    ensures forall k | k in m.entries :: m.entries[k] in r
  {
    var r := seq(|m.order|, i requires 0 <= i < |m.order| => m.entries[m.order[i]]);
    assert forall k | k in m.entries :: m.entries[k] in r by {
      forall k | k in m.entries ensures m.entries[k] in r {
        var i :| 0 <= i < |m.order| && m.order[i] == k;
        assert r[i] == m.entries[k];
      }
    }
    r
  }

  /** One iteration of the merge loop: an id already present keeps its record and its
      position (`existingTransaction || transaction` picks the stored record); a new id is
      appended with the incoming record. */
  function Insert(m: TransactionMap, t: Transaction): TransactionMap {
    if t.id in m.entries then m
    else TransactionMap(m.order + [t.id], m.entries[t.id := t])
  }

  /** The specification of a merge: the batch folded into the store from left to right. */
  function Merge(m: TransactionMap, batch: seq<Transaction>): (r: TransactionMap)
    // the existing entry wins: no stored transaction is changed or removed
    ensures forall k | k in m.entries :: k in r.entries && r.entries[k] == m.entries[k]
    decreases |batch|
  {
    if batch == [] then m else Merge(Insert(m, batch[0]), batch[1..])
  }

  /** A merge never removes a key: the keys afterwards are the old keys plus every incoming id. */
  lemma {:induction false} MergeKeys(m: TransactionMap, batch: seq<Transaction>)
    ensures Merge(m, batch).entries.Keys == m.entries.Keys + Ids(batch)
    decreases |batch|
  {
    if batch != [] {
      assert Ids(batch) == {batch[0].id} + Ids(batch[1..]) by {
        assert forall t | t in batch :: t == batch[0] || t in batch[1..];
      }
      MergeKeys(Insert(m, batch[0]), batch[1..]);
    }
  }

  /** A merge keeps the store well formed. */
  lemma {:induction false} MergeValid(m: TransactionMap, batch: seq<Transaction>)
    requires m.Valid()
    ensures Merge(m, batch).Valid()
    decreases |batch|
  {
    if batch != [] {
      var m' := Insert(m, batch[0]);
      assert m'.Valid();
      MergeValid(m', batch[1..]);
    }
  }

  /** The first transaction of `batch` with id `id`, if any. */
  function FirstWithId(batch: seq<Transaction>, id: string): Option<Transaction> {
    if batch == [] then None
    else if batch[0].id == id then Some(batch[0])
    else FirstWithId(batch[1..], id)
  }

  /** The ids of `batch` not in `seen`, each once, in the order of their first occurrence. */
  function NewIds(seen: set<string>, batch: seq<Transaction>): seq<string>
    decreases |batch|
  {
    if batch == [] then []
    else if batch[0].id in seen then NewIds(seen, batch[1..])
    else [batch[0].id] + NewIds(seen + {batch[0].id}, batch[1..])
  }

  /** Every id after a merge holds what it held before, or else the first record carrying that
      id in the batch. */
  lemma {:induction false} MergeEntries(m: TransactionMap, batch: seq<Transaction>, id: string)
    ensures Lookup(Merge(m, batch), id)
         == if id in m.entries then Some(m.entries[id]) else FirstWithId(batch, id)
    decreases |batch|
  {
    if batch != [] {
      MergeEntries(Insert(m, batch[0]), batch[1..], id);
    }
  }

  /** A merge keeps the old keys in their order and appends the new ids in the order in which
      they first occur in the batch. */
  lemma {:induction false} MergeOrder(m: TransactionMap, batch: seq<Transaction>)
    ensures Merge(m, batch).order == m.order + NewIds(m.entries.Keys, batch)
    decreases |batch|
  {
    if batch != [] {
      var m' := Insert(m, batch[0]);
      MergeOrder(m', batch[1..]);
      if batch[0].id !in m.entries {
        assert m'.entries.Keys == m.entries.Keys + {batch[0].id};
        assert m.order + [batch[0].id] + NewIds(m'.entries.Keys, batch[1..])
            == m.order + ([batch[0].id] + NewIds(m'.entries.Keys, batch[1..]));
      }
    }
  }

  /** Merging a batch whose ids are all present already changes nothing. */
  lemma {:induction false} MergeKnownIds(m: TransactionMap, batch: seq<Transaction>)
    requires forall t | t in batch :: t.id in m.entries
    ensures Merge(m, batch) == m
    decreases |batch|
  {
    if batch != [] {
      assert batch[0] in batch;
      MergeKnownIds(m, batch[1..]);
    }
  }

  /** Merging the same batch twice gives the same store, order included, as merging it once. */
  lemma MergeIdempotent(m: TransactionMap, batch: seq<Transaction>)
    ensures Merge(Merge(m, batch), batch) == Merge(m, batch)
  {
    var once := Merge(m, batch);
    MergeKeys(m, batch);
    assert forall t | t in batch :: t.id in Ids(batch);
    MergeKnownIds(once, batch);
  }

  /** Merging `a + b` is merging `a` and then `b`. */
  lemma {:induction false} MergeConcat(m: TransactionMap, a: seq<Transaction>, b: seq<Transaction>)
    ensures Merge(m, a + b) == Merge(Merge(m, a), b)
    decreases |a|
  {
    if a == [] {
      assert a + b == b;
    } else {
      assert (a + b)[0] == a[0];
      assert (a + b)[1..] == a[1..] + b;
      MergeConcat(Insert(m, a[0]), a[1..], b);
    }
  }

  /** The paginated merge effect folds the whole accumulated `data` (old pages followed by the
      new page) each time; once the old pages are merged, this is the same as merging only the
      new page. */
  lemma ReMergeAccumulated(m: TransactionMap, oldPages: seq<Transaction>, newPage: seq<Transaction>)
    ensures Merge(Merge(m, oldPages), oldPages + newPage) == Merge(Merge(m, oldPages), newPage)
  {
    MergeConcat(Merge(m, oldPages), oldPages, newPage);
    MergeIdempotent(m, oldPages);
  }

  /** The imperative merge of one fetched batch: copy the map, then walk the batch and `set`
      each id to the stored record if there is one, else to the incoming record. */
  method MergeBatch(prevMap: TransactionMap, batch: seq<Transaction>) returns (newMap: TransactionMap)
    ensures newMap == Merge(prevMap, batch)
  {
    var order, entries := prevMap.order, prevMap.entries;
    var i := 0;
    while i < |batch|
      invariant 0 <= i <= |batch|
      invariant Merge(TransactionMap(order, entries), batch[i..]) == Merge(prevMap, batch)
    {
      ghost var before := TransactionMap(order, entries);
      var transaction := batch[i];
      var existing := if transaction.id in entries then Some(entries[transaction.id]) else None;
      if existing.None? {
        // Map.set of a new key appends it; an existing key keeps its position
        order := order + [transaction.id];
      }
      entries := entries[transaction.id := if existing.Some? then existing.value else transaction];
      assert existing.Some? ==> entries == before.entries;
      assert TransactionMap(order, entries) == Insert(before, transaction);
      assert batch[i..] == [transaction] + batch[i + 1..];
      assert Merge(before, batch[i..]) == Merge(Insert(before, transaction), batch[i + 1..]);
      i := i + 1;
    }
    assert batch[i..] == [];
    newMap := TransactionMap(order, entries);
  }

  /** The store after `updateTransaction(id, approved)`. */
  function WithApproval(m: TransactionMap, id: string, approved: bool): (r: TransactionMap)
    ensures r.order == m.order && r.entries.Keys == m.entries.Keys
    ensures forall k | k in m.entries && k != id :: r.entries[k] == m.entries[k]
    // on a known id only the approval flag changes
    ensures id in m.entries ==>
              r.entries[id].approved == approved
              && r.entries[id].(approved := m.entries[id].approved) == m.entries[id]
    ensures id !in m.entries ==> r == m
    ensures m.Valid() ==> r.Valid()
  {
    if id in m.entries then TransactionMap(m.order, m.entries[id := m.entries[id].(approved := approved)])
    else m
  }

  /** `updateTransaction`: copy the map and, if the id is known, overwrite its record with a
      copy whose `approved` is the new flag. */
  method UpdateTransaction(prevMap: TransactionMap, transactionId: string, approved: bool)
    returns (newMap: TransactionMap)
    ensures newMap == WithApproval(prevMap, transactionId, approved)
  {
    var entries := prevMap.entries;
    var transaction := Lookup(prevMap, transactionId);
    if transaction.Some? {
      entries := entries[transactionId := transaction.value.(approved := approved)];
    }
    newMap := TransactionMap(prevMap.order, entries);
  }

  /** A run of merges, one per batch, from either feed. */
  function MergeAll(m: TransactionMap, batches: seq<seq<Transaction>>): TransactionMap
    decreases |batches|
  {
    if batches == [] then m else MergeAll(Merge(m, batches[0]), batches[1..])
  }

  /** No run of merges changes a stored transaction. */
  lemma {:induction false} MergeAllKeepsExisting(m: TransactionMap, batches: seq<seq<Transaction>>, id: string)
    requires id in m.entries
    ensures id in MergeAll(m, batches).entries && MergeAll(m, batches).entries[id] == m.entries[id]
    decreases |batches|
  {
    if batches != [] {
      MergeAllKeepsExisting(Merge(m, batches[0]), batches[1..], id);
    }
  }

  /** Local-edit precedence: once `updateTransaction(id, approved)` has set the flag of a known
      id, no later merge from either feed reverts it. */
  lemma LocalEditSurvivesMerges(m: TransactionMap, id: string, approved: bool, batches: seq<seq<Transaction>>)
    requires id in m.entries
    ensures id in MergeAll(WithApproval(m, id, approved), batches).entries
    ensures MergeAll(WithApproval(m, id, approved), batches).entries[id].approved == approved
  {
    MergeAllKeepsExisting(WithApproval(m, id, approved), batches, id);
  }
}
