/**
 * The convention shared by every configuration table: an ordered array of
 * rows, scanned from the front, whose last row has a null name and carries
 * the fallback value. The model keeps such a table as the named entries plus
 * an explicit default (`Table`), and relates it to the C layout (`Row`s ending
 * in a null-named row) and to the C-style scan over that layout.
 */
module SentinelTable {
  import opened Wrappers

  /** One row of a C table; `name` is `None` where the C row holds a null pointer. */
  datatype Row<V> = Row(name: Option<string>, value: V)

  /** A table as the model keeps it: named entries in declaration order and the fallback. */
  datatype Table<V> = Table(entries: seq<(string, V)>, default: V)

  /** The C layout: a null name on the last row and on no other. */
  predicate Terminated<V>(rows: seq<Row<V>>)
  {
    && |rows| > 0
    && rows[|rows| - 1].name.None?
    && forall i :: 0 <= i < |rows| - 1 ==> rows[i].name.Some?
  }

  /** Some row has a null name, so a scan from the front stops inside the array. */
  predicate HasNullRow<V>(rows: seq<Row<V>>)
  {
    exists i :: 0 <= i < |rows| && rows[i].name.None?
  }

  /** Reads a C table: every row before the terminator is an entry, the terminator's value is the default. */
  function FromRows<V>(rows: seq<Row<V>>): (t: Table<V>)
    requires Terminated(rows)
    ensures |t.entries| == |rows| - 1
    ensures t.default == rows[|rows| - 1].value
    ensures forall i :: 0 <= i < |t.entries| ==> rows[i] == Row(Some(t.entries[i].0), t.entries[i].1)
  {
    Table(seq(|rows| - 1, i requires 0 <= i < |rows| - 1 => (rows[i].name.value, rows[i].value)),
          rows[|rows| - 1].value)
  }

  /** Writes a table in the C layout, the default becoming the null-named last row. */
  function ToRows<V>(t: Table<V>): (rows: seq<Row<V>>)
    ensures Terminated(rows)
    ensures |rows| == |t.entries| + 1
    ensures rows[|t.entries|] == Row(None, t.default)
    ensures forall i :: 0 <= i < |t.entries| ==> rows[i] == Row(Some(t.entries[i].0), t.entries[i].1)
  {
    seq(|t.entries|, i requires 0 <= i < |t.entries| => Row(Some(t.entries[i].0), t.entries[i].1))
      + [Row(None, t.default)]
  }

  lemma FromToRows<V>(t: Table<V>)
    ensures FromRows(ToRows(t)) == t
  {
    var t' := FromRows(ToRows(t));
    assert t'.entries == t.entries;
  }

  lemma ToFromRows<V>(rows: seq<Row<V>>)
    requires Terminated(rows)
    ensures ToRows(FromRows(rows)) == rows
  {
    var rows' := ToRows(FromRows(rows));
    assert forall i :: 0 <= i < |rows| ==> rows'[i] == rows[i];
  }

  /** The names of the entries, in order. */
  function Names<V>(entries: seq<(string, V)>): seq<string>
  {
    seq(|entries|, i requires 0 <= i < |entries| => entries[i].0)
  }

  predicate UniqueNames(names: seq<string>)
  {
    forall i, j :: 0 <= i < j < |names| ==> names[i] != names[j]
  }

  /** Position of the first occurrence of `name` (case-sensitive exact match), if any. */
  function IndexOf(names: seq<string>, name: string): (r: Option<nat>)
    ensures r.None? <==> name !in names
    ensures r.Some? ==> r.value < |names| && names[r.value] == name
    ensures r.Some? ==> forall j :: 0 <= j < r.value ==> names[j] != name
  {
    if |names| == 0 then None
    else if names[0] == name then Some(0)
    else
      match IndexOf(names[1..], name)
      case None => None
      case Some(k) => Some(k + 1)
  }

  /** First-match lookup; a name that matches no entry yields the default. */
  function Lookup<V>(t: Table<V>, name: string): (v: V)
    ensures name !in Names(t.entries) ==> v == t.default
    ensures name in Names(t.entries) ==> exists i :: 0 <= i < |t.entries| && t.entries[i] == (name, v)
  {
    match IndexOf(Names(t.entries), name)
    case None => t.default
    case Some(i) => t.entries[i].1
  }

  /** The entry at `i` is the one a lookup of its name returns when no earlier entry has that name. */
  lemma LookupFirstMatch<V>(t: Table<V>, i: nat)
    requires i < |t.entries|
    requires forall j :: 0 <= j < i ==> t.entries[j].0 != t.entries[i].0
    ensures Lookup(t, t.entries[i].0) == t.entries[i].1
  {
    assert Names(t.entries)[i] == t.entries[i].0;
  }

  /** With unique names every entry is reached by its own name. */
  lemma LookupListed<V>(t: Table<V>, i: nat)
    requires UniqueNames(Names(t.entries))
    requires i < |t.entries|
    ensures Lookup(t, t.entries[i].0) == t.entries[i].1
  {
    var ns := Names(t.entries);
    forall j | 0 <= j < i
      ensures t.entries[j].0 != t.entries[i].0
    {
      assert ns[j] != ns[i];
    }
    LookupFirstMatch(t, i);
  }

  /** A first entry that does not match is skipped: the lookup continues in the rest of the table. */
  lemma LookupSkipsHead<V>(t: Table<V>, name: string)
    requires |t.entries| > 0 && t.entries[0].0 != name
    ensures Lookup(t, name) == Lookup(Table(t.entries[1..], t.default), name)
  {
    var ns := Names(t.entries);
    assert ns[0] == t.entries[0].0;
    assert ns[1..] == Names(t.entries[1..]);
  }

  /**
   * When no named entry carries the default value, a lookup yields the
   * default exactly when the name is unlisted: the fallback can be told
   * apart from every real entry.
   */
  lemma DefaultIffUnlisted<V>(t: Table<V>, name: string)
    requires forall i :: 0 <= i < |t.entries| ==> t.entries[i].1 != t.default
    ensures Lookup(t, name) == t.default <==> name !in Names(t.entries)
  {
  }

  /**
   * The scan a C dispatcher performs over the rows: walk from the front and
   * stop at the first row whose name is null or equal to `name`.
   */
  function Scan<V>(rows: seq<Row<V>>, name: string): V
    requires HasNullRow(rows)
    decreases |rows|
  {
    if rows[0].name.None? || rows[0].name.value == name then rows[0].value
    else
      var k :| 0 <= k < |rows| && rows[k].name.None?;
      assert rows[1..][k - 1].name.None?;
      Scan(rows[1..], name)
  }

  /** The scan returns the first row that is a terminator or a match. */
  lemma {:induction false} ScanStopsAt<V>(rows: seq<Row<V>>, name: string, k: nat)
    requires HasNullRow(rows)
    requires k < |rows| && (rows[k].name.None? || rows[k].name == Some(name))
    requires forall j :: 0 <= j < k ==> rows[j].name.Some? && rows[j].name != Some(name)
    ensures Scan(rows, name) == rows[k].value
    decreases k
  {
    if k > 0 {
      var m :| 0 <= m < |rows| && rows[m].name.None?;
      assert rows[1..][m - 1].name.None?;
      ScanStopsAt(rows[1..], name, k - 1);
    }
  }

  /** Scanning the C layout agrees with the first-match lookup on the explicit table. */
  lemma ScanIsLookup<V>(rows: seq<Row<V>>, name: string)
    requires Terminated(rows)
    ensures HasNullRow(rows)
    ensures Scan(rows, name) == Lookup(FromRows(rows), name)
  {
    var n := |rows| - 1;
    assert rows[n].name.None?;
    var t := FromRows(rows);
    var ns := Names(t.entries);
    match IndexOf(ns, name)
    case None =>
      forall j | 0 <= j < n
        ensures rows[j].name.Some? && rows[j].name != Some(name)
      {
        assert ns[j] == t.entries[j].0;
      }
      ScanStopsAt(rows, name, n);
    case Some(i) =>
      forall j | 0 <= j < i
        ensures rows[j].name.Some? && rows[j].name != Some(name)
      {
        assert ns[j] == t.entries[j].0;
      }
      ScanStopsAt(rows, name, i);
  }
}
