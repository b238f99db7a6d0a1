/**
 * The key index: key names mapped to numeric ids in 1..32767, so that a
 * backend can store the number instead of the name. The terminator row
 * carries id 0, which no key uses, so 0 means "no id for this key".
 */
module KeyIndex {
  import opened Wrappers
  import opened SentinelTable

  const MinId: int := 1
  const MaxId: int := 32767

  /** `embedis_dictionary_keys` as written. */
  const KeyRows: seq<Row<int>> := [
    Row(Some("asset_identification"), 1000),
    Row(None, 0)
  ]

  const KeyTable: Table<int> := Table([("asset_identification", 1000)], 0)

  /** Every id is in 1..32767 and used once, every name is listed once, and the fallback is 0. */
  predicate ValidIndex(t: Table<int>)
  {
    && t.default == 0
    && UniqueNames(Names(t.entries))
    && (forall i :: 0 <= i < |t.entries| ==> MinId <= t.entries[i].1 <= MaxId)
    && (forall i, j :: 0 <= i < j < |t.entries| ==> t.entries[i].1 != t.entries[j].1)
  }

  /** The id stored for `name`, or 0 when the key has none. */
  function KeyId(name: string): int
  {
    Lookup(KeyTable, name)
  }

  lemma KeyRowsLayout()
    ensures Terminated(KeyRows)
    ensures FromRows(KeyRows) == KeyTable
  {
    FromToRows(KeyTable);
  }

  lemma KeyTableValid()
    ensures ValidIndex(KeyTable)
  {
  }

  /**
   * In a valid index a lookup gives 0 exactly for unlisted keys and an id in
   * range otherwise, and different listed keys get different ids.
   */
  lemma IdsOfValidIndex(t: Table<int>, name: string, other: string)
    requires ValidIndex(t)
    ensures Lookup(t, name) == 0 <==> name !in Names(t.entries)
    ensures Lookup(t, name) != 0 ==> MinId <= Lookup(t, name) <= MaxId
    ensures name in Names(t.entries) && other in Names(t.entries) && name != other ==>
              Lookup(t, name) != Lookup(t, other)
  {
    DefaultIffUnlisted(t, name);
    if name in Names(t.entries) && other in Names(t.entries) && name != other {
      var i :| 0 <= i < |t.entries| && t.entries[i] == (name, Lookup(t, name));
      var j :| 0 <= j < |t.entries| && t.entries[j] == (other, Lookup(t, other));
      assert i != j;
      if i < j {
        assert t.entries[i].1 != t.entries[j].1;
      } else {
        assert t.entries[j].1 != t.entries[i].1;
      }
    }
  }

  /** "asset_identification" has id 1000; a key that is not listed has none. */
  lemma KeyIdExamples(name: string)
    ensures KeyId("asset_identification") == 1000
    ensures name != "asset_identification" ==> KeyId(name) == 0
    ensures KeyId(name) == 0 || MinId <= KeyId(name) <= MaxId
  {
    LookupFirstMatch(KeyTable, 0);
    KeyTableValid();
    IdsOfValidIndex(KeyTable, name, name);
  }
}
