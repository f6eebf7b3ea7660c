/** Grouping a list by key through an insertion-ordered dictionary, and what every such loop conserves. */
module Grouping {
  import opened Lists

  datatype Entry<+K, +G> = Entry(key: K, value: G)

  // ---------- what grouping means ----------

  /** The keys of the items, each once, in the order they are first met. */
  function Keys<K(==), E>(items: seq<E>, key: E -> K): seq<K> {
    if items == [] then [] else
      var before := Keys(items[..|items| - 1], key);
      var k := key(items[|items| - 1]);
      if k in before then before else before + [k]
  }

  /** The items with key `k`, in order. */
  function Members<K(==), E>(items: seq<E>, key: E -> K, k: K): seq<E> {
    if items == [] then [] else
      var before := Members(items[..|items| - 1], key, k);
      var last := items[|items| - 1];
      if key(last) == k then before + [last] else before
  }

  function Total<E>(items: seq<E>, weight: E -> int): int {
    if items == [] then 0 else Total(items[..|items| - 1], weight) + weight(items[|items| - 1])
  }

  function TotalByKey<K(==), E>(items: seq<E>, key: E -> K, weight: E -> int, keys: seq<K>): int {
    if keys == [] then 0 else
      TotalByKey(items, key, weight, keys[..|keys| - 1]) + Total(Members(items, key, keys[|keys| - 1]), weight)
  }

  lemma {:induction false} KeysAreDistinct<K, E>(items: seq<E>, key: E -> K)
    ensures Distinct(Keys(items, key))
  {
    if items != [] { KeysAreDistinct(items[..|items| - 1], key); }
  }

  lemma {:induction false} KeyHasMembers<K, E>(items: seq<E>, key: E -> K, k: K)
    ensures k in Keys(items, key) <==> Members(items, key, k) != []
  {
    if items != [] { KeyHasMembers(items[..|items| - 1], key, k); }
  }

  lemma {:induction false} MembersHaveTheKey<K, E>(items: seq<E>, key: E -> K, k: K)
    ensures forall e :: e in Members(items, key, k) <==> e in items && key(e) == k
  {
    if items != [] {
      MembersHaveTheKey(items[..|items| - 1], key, k);
      assert items == items[..|items| - 1] + [items[|items| - 1]];
    }
  }

  /** One more item adds its weight to exactly one key's total. */
  lemma {:induction false} OneKeyGrows<K, E>(items: seq<E>, e: E, key: E -> K, weight: E -> int, keys: seq<K>)
    requires Distinct(keys)
    ensures TotalByKey(items + [e], key, weight, keys)
         == TotalByKey(items, key, weight, keys) + if key(e) in keys then weight(e) else 0
  {
    if keys != [] {
      var k := keys[|keys| - 1];
      OneKeyGrows(items, e, key, weight, keys[..|keys| - 1]);
      assert (items + [e])[..|items|] == items;
      assert key(e) == k ==> key(e) !in keys[..|keys| - 1];
    }
  }

  lemma {:induction false} ForeignKeysAddNothing<K, E>(items: seq<E>, key: E -> K, weight: E -> int, keys: seq<K>, k: K)
    requires Members(items, key, k) == []
    ensures TotalByKey(items, key, weight, keys + [k]) == TotalByKey(items, key, weight, keys)
  {
    assert (keys + [k])[..|keys|] == keys;
  }

  lemma NewKeysGrow<K, E>(items: seq<E>, e: E, key: E -> K, weight: E -> int)
    ensures TotalByKey(items, key, weight, Keys(items + [e], key)) == TotalByKey(items, key, weight, Keys(items, key))
    ensures key(e) in Keys(items + [e], key)
  {
    assert (items + [e])[..|items|] == items;
    if key(e) !in Keys(items, key) {
      KeyHasMembers(items, key, key(e));
      ForeignKeysAddNothing(items, key, weight, Keys(items, key), key(e));
    }
  }

  /** Nothing is lost or counted twice: the totals of the groups add up to the total of the items. */
  lemma {:induction false} GroupsConserveTotals<K, E>(items: seq<E>, key: E -> K, weight: E -> int)
    ensures TotalByKey(items, key, weight, Keys(items, key)) == Total(items, weight)
  {
    if items != [] {
      var before, e := items[..|items| - 1], items[|items| - 1];
      GroupsConserveTotals(before, key, weight);
      assert items == before + [e];
      NewKeysGrow(before, e, key, weight);
      KeysAreDistinct(before + [e], key);
      OneKeyGrows(before, e, key, weight, Keys(before + [e], key));
    }
  }

  lemma {:induction false} TotalOfConcat<E>(a: seq<E>, b: seq<E>, weight: E -> int)
    ensures Total(a + b, weight) == Total(a, weight) + Total(b, weight)
  {
    if b == [] {
      assert a + b == a;
    } else {
      TotalOfConcat(a, b[..|b| - 1], weight);
      assert (a + b)[..|a + b| - 1] == a + b[..|b| - 1];
    }
  }

  lemma {:induction false} MembersOfConcat<K, E>(a: seq<E>, b: seq<E>, key: E -> K, k: K)
    ensures Members(a + b, key, k) == Members(a, key, k) + Members(b, key, k)
  {
    if b == [] {
      assert a + b == a;
    } else {
      MembersOfConcat(a, b[..|b| - 1], key, k);
      assert (a + b)[..|a + b| - 1] == a + b[..|b| - 1];
    }
  }

  // ---------- the dictionary loop ----------

  function Find<K(==), G>(entries: seq<Entry<K, G>>, k: K): (i: nat)
    ensures i <= |entries| && (i < |entries| ==> entries[i].key == k)
    ensures forall j :: 0 <= j < i ==> entries[j].key != k
  {
    if entries == [] then 0 else if entries[0].key == k then 0 else 1 + Find(entries[1..], k)
  }

  /** Start an entry for a new key, or fold the item into the entry the key already has. */
  function Upsert<K(==), E, G>(entries: seq<Entry<K, G>>, k: K, e: E, start: E -> G, add: (G, E) -> G): seq<Entry<K, G>> {
    var i := Find(entries, k);
    if i < |entries| then entries[i := Entry(k, add(entries[i].value, e))] else entries + [Entry(k, start(e))]
  }

  function Grouped<K(==), E, G>(items: seq<E>, key: E -> K, start: E -> G, add: (G, E) -> G): seq<Entry<K, G>> {
    if items == [] then [] else
      var e := items[|items| - 1];
      Upsert(Grouped(items[..|items| - 1], key, start, add), key(e), e, start, add)
  }

  lemma GroupedIsEmpty<K, E, G>(items: seq<E>, key: E -> K, start: E -> G, add: (G, E) -> G)
    ensures Grouped(items, key, start, add) == [] <==> items == []
  {
  }

  /** `record` says what an entry holds once it has taken a first item and then the rest of its members. */
  ghost predicate Accumulates<E(!new), G(!new)>(start: E -> G, add: (G, E) -> G, record: (E, seq<E>) -> G) {
    && (forall e :: start(e) == record(e, []))
    && (forall first, rest, e :: add(record(first, rest), e) == record(first, rest + [e]))
  }

  ghost predicate EntryIsRecord<K(!new), E(!new), G(!new)>(
      entry: Entry<K, G>, k: K, members: seq<E>, record: (E, seq<E>) -> G) {
    members != [] && entry.key == k && entry.value == record(members[0], members[1..])
  }

  ghost predicate GroupsAreRecords<K(!new), E(!new), G(!new)>(
      entries: seq<Entry<K, G>>, items: seq<E>, key: E -> K, record: (E, seq<E>) -> G) {
    && |entries| == |Keys(items, key)|
    && forall i :: 0 <= i < |entries| ==>
         EntryIsRecord(entries[i], Keys(items, key)[i], Members(items, key, Keys(items, key)[i]), record)
  }

  lemma EntryGrows<K(!new), E(!new), G(!new)>(
      entry: Entry<K, G>, k: K, members: seq<E>, e: E, start: E -> G, add: (G, E) -> G, record: (E, seq<E>) -> G)
    requires Accumulates(start, add, record) && EntryIsRecord(entry, k, members, record)
    ensures EntryIsRecord(Entry(k, add(entry.value, e)), k, members + [e], record)
  {
    assert (members + [e])[1..] == members[1..] + [e];
  }

  lemma EntryStarts<K(!new), E(!new), G(!new)>(
      k: K, e: E, start: E -> G, add: (G, E) -> G, record: (E, seq<E>) -> G)
    requires Accumulates(start, add, record)
    ensures EntryIsRecord(Entry(k, start(e)), k, [e], record)
  {
  }

  lemma FindsTheKey<K(!new), E(!new), G(!new)>(
      entries: seq<Entry<K, G>>, items: seq<E>, key: E -> K, record: (E, seq<E>) -> G, k: K)
    requires GroupsAreRecords(entries, items, key, record)
    ensures Find(entries, k) < |entries| <==> k in Keys(items, key)
    ensures Find(entries, k) < |entries| ==> Keys(items, key)[Find(entries, k)] == k
  {
    var keys := Keys(items, key);
    assert forall i :: 0 <= i < |entries| ==> entries[i].key == keys[i];
  }

  lemma {:induction false} UpsertKeepsRecords<K(!new), E(!new), G(!new)>(
      entries: seq<Entry<K, G>>, items: seq<E>, e: E, key: E -> K,
      start: E -> G, add: (G, E) -> G, record: (E, seq<E>) -> G)
    requires Accumulates(start, add, record) && GroupsAreRecords(entries, items, key, record)
    ensures GroupsAreRecords(Upsert(entries, key(e), e, start, add), items + [e], key, record)
  {
    var k, all, keys := key(e), items + [e], Keys(items, key);
    var after := Upsert(entries, k, e, start, add);
    FindsTheKey(entries, items, key, record, k);
    KeyHasMembers(items, key, k);
    KeysAreDistinct(items, key);
    assert all[..|all| - 1] == items;
    forall i | 0 <= i < |after|
      ensures EntryIsRecord(after[i], Keys(all, key)[i], Members(all, key, Keys(all, key)[i]), record)
    {
      if i == Find(entries, k) {
        if i < |entries| {
          EntryGrows(entries[i], k, Members(items, key, k), e, start, add, record);
        } else {
          EntryStarts(k, e, start, add, record);
        }
      } else {
        assert after[i] == entries[i] && Keys(all, key)[i] == keys[i];
      }
    }
  }

  /** The loop leaves exactly one entry per key, in first-met order, and each entry is the record of its members. */
  lemma {:induction false} GroupedIsRecords<K(!new), E(!new), G(!new)>(
      items: seq<E>, key: E -> K, start: E -> G, add: (G, E) -> G, record: (E, seq<E>) -> G)
    requires Accumulates(start, add, record)
    ensures GroupsAreRecords(Grouped(items, key, start, add), items, key, record)
  {
    if items != [] {
      var before, e := items[..|items| - 1], items[|items| - 1];
      GroupedIsRecords(before, key, start, add, record);
      UpsertKeepsRecords(Grouped(before, key, start, add), before, e, key, start, add, record);
      assert items == before + [e];
    }
  }

  lemma {:induction false} PrefixCounts<K(!new), E(!new), G(!new)>(
      entries: seq<Entry<K, G>>, items: seq<E>, key: E -> K, record: (E, seq<E>) -> G,
      weight: E -> int, measure: Entry<K, G> -> int, n: nat)
    requires GroupsAreRecords(entries, items, key, record) && n <= |entries|
    requires forall k, members: seq<E>, entry ::
      EntryIsRecord(entry, k, members, record) ==> measure(entry) == Total(members, weight)
    ensures Total(entries[..n], measure) == TotalByKey(items, key, weight, Keys(items, key)[..n])
  {
    if n > 0 {
      var keys := Keys(items, key);
      PrefixCounts(entries, items, key, record, weight, measure, n - 1);
      assert entries[..n][..n - 1] == entries[..n - 1] && keys[..n][..n - 1] == keys[..n - 1];
      assert EntryIsRecord(entries[n - 1], keys[n - 1], Members(items, key, keys[n - 1]), record);
    }
  }

  /** When each entry measures the weight of its members, the entries together measure the weight of all items. */
  lemma EntriesConserveTotals<K(!new), E(!new), G(!new)>(
      entries: seq<Entry<K, G>>, items: seq<E>, key: E -> K, record: (E, seq<E>) -> G,
      weight: E -> int, measure: Entry<K, G> -> int)
    requires GroupsAreRecords(entries, items, key, record)
    requires forall k, members: seq<E>, entry ::
      EntryIsRecord(entry, k, members, record) ==> measure(entry) == Total(members, weight)
    ensures Total(entries, measure) == Total(items, weight)
  {
    PrefixCounts(entries, items, key, record, weight, measure, |entries|);
    assert entries[..|entries|] == entries && Keys(items, key)[..|entries|] == Keys(items, key);
    GroupsConserveTotals(items, key, weight);
  }
}
