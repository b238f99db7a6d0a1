/**
 * The dictionaries SELECT chooses between, and the ROM dictionary's
 * contents. The ROM dictionary is a flat array of strings: keys and values
 * alternate, and a null key ends it. The first dictionary listed is the one
 * selected by default.
 */
module Dictionaries {
  import opened Wrappers
  import opened SentinelTable

  /** `embedis_dictionary_rom` as written. */
  const RomStrings: seq<Option<string>> := [Some("vendor"), Some("PatternAgents"), None]

  /** Keys and values alternate before a single null key that ends the array. */
  predicate Alternating(strs: seq<Option<string>>)
  {
    && |strs| % 2 == 1
    && strs[|strs| - 1].None?
    && forall i :: 0 <= i < |strs| - 1 ==> strs[i].Some?
  }

  /**
   * The ROM dictionary as a table: key i is string 2i, its value string
   * 2i + 1; a key that is not there yields no value.
   */
  function RomTable(strs: seq<Option<string>>): (t: Table<Option<string>>)
    requires Alternating(strs)
    ensures |t.entries| == |strs| / 2 && t.default == None
    ensures forall i :: 0 <= i < |t.entries| ==>
              strs[2 * i] == Some(t.entries[i].0) && strs[2 * i + 1] == t.entries[i].1 && t.entries[i].1.Some?
  {
    Table(seq(|strs| / 2, i requires 0 <= i < |strs| / 2 => (strs[2 * i].value, strs[2 * i + 1])), None)
  }

  /** A GET against the ROM dictionary: walk the keys two strings at a time up to the null key. */
  function RomScan(strs: seq<Option<string>>, key: string): Option<string>
    requires Alternating(strs)
    decreases |strs|
  {
    if strs[0].None? then None
    else if strs[0].value == key then strs[1]
    else RomScan(strs[2..], key)
  }

  /** Dropping the first key and value drops the first entry of the table. */
  lemma RomTableShift(strs: seq<Option<string>>)
    requires Alternating(strs) && strs[0].Some?
    ensures Alternating(strs[2..])
    ensures RomTable(strs[2..]) == Table(RomTable(strs).entries[1..], None)
  {
    var rest := strs[2..];
    var t := RomTable(strs);
    forall i | 0 <= i < |RomTable(rest).entries|
      ensures RomTable(rest).entries[i] == t.entries[i + 1]
    {
      assert rest[2 * i] == strs[2 * (i + 1)];
      assert rest[2 * i + 1] == strs[2 * (i + 1) + 1];
    }
  }

  /** The pairwise walk over the flat array is the first-match lookup on its table. */
  lemma {:induction false} RomScanIsLookup(strs: seq<Option<string>>, key: string)
    requires Alternating(strs)
    ensures RomScan(strs, key) == Lookup(RomTable(strs), key)
    decreases |strs|
  {
    var t := RomTable(strs);
    if strs[0].Some? {
      if strs[0].value == key {
        LookupFirstMatch(t, 0);
      } else {
        RomTableShift(strs);
        RomScanIsLookup(strs[2..], key);
        LookupSkipsHead(t, key);
      }
    }
  }

  /** The ROM value for `key`, if the ROM dictionary has one. */
  function RomGet(key: string): Option<string>
  {
    Lookup(RomTable(RomStrings), key)
  }

  /** The ROM array is well formed: an even number of strings before the null key, none of them null. */
  lemma RomStringsWellFormed()
    ensures Alternating(RomStrings)
    ensures (|RomStrings| - 1) % 2 == 0
    ensures RomTable(RomStrings) == Table([("vendor", Some("PatternAgents"))], None)
  {
  }

  /** GET "vendor" on the ROM dictionary answers "PatternAgents"; any other key has no value. */
  lemma RomVendor(key: string)
    ensures RomGet("vendor") == Some("PatternAgents")
    ensures key != "vendor" ==> RomGet(key) == None
    ensures RomScan(RomStrings, key) == RomGet(key)
  {
    RomStringsWellFormed();
    RomScanIsLookup(RomStrings, key);
    LookupFirstMatch(RomTable(RomStrings), 0);
  }

  /** The command set a dictionary answers with: `embedis_rom_commands` or `embedis_ram_commands`. */
  datatype CommandSet = RomCommands | RamCommands

  /** The storage behind a dictionary: the ROM string array or the mock RAM access record. */
  datatype Backend = RomArray | MockRamAccess

  datatype Dictionary = Dictionary(commands: CommandSet, backend: Backend)

  /** `embedis_dictionaries` as written; the terminator row `{0, 0, 0}` carries no dictionary. */
  const DictionaryRows: seq<Row<Option<Dictionary>>> := [
    Row(Some("ROM"), Some(Dictionary(RomCommands, RomArray))),
    Row(Some("RAM"), Some(Dictionary(RamCommands, MockRamAccess))),
    Row(None, None)
  ]

  const DictionaryTable: Table<Option<Dictionary>> := Table([
    ("ROM", Some(Dictionary(RomCommands, RomArray))),
    ("RAM", Some(Dictionary(RamCommands, MockRamAccess)))
  ], None)

  /** The dictionary selected before any SELECT: the first one listed. */
  const DefaultDictionary: nat := 0

  /** The position SELECT looks up for a dictionary name, if there is one. */
  function FindDictionary(name: string): Option<nat>
  {
    IndexOf(Names(DictionaryTable.entries), name)
  }

  lemma DictionaryRowsLayout()
    ensures Terminated(DictionaryRows)
    ensures FromRows(DictionaryRows) == DictionaryTable
  {
    FromToRows(DictionaryTable);
  }

  /** Names are unique, and the default is the ROM dictionary. */
  lemma DictionaryListWellFormed()
    ensures UniqueNames(Names(DictionaryTable.entries))
    ensures DefaultDictionary < |DictionaryTable.entries|
    ensures DictionaryTable.entries[DefaultDictionary].0 == "ROM"
    ensures FindDictionary("ROM") == Some(DefaultDictionary)
  {
    assert Names(DictionaryTable.entries) == ["ROM", "RAM"];
  }

  /**
   * A name is found exactly when the table gives it a dictionary; the ROM
   * dictionary answers with ROM commands over the string array, the RAM
   * dictionary with RAM commands over the mock RAM.
   */
  lemma DictionaryLookup(name: string)
    ensures FindDictionary(name).None? <==> Lookup(DictionaryTable, name) == None
    ensures Lookup(DictionaryTable, "ROM") == Some(Dictionary(RomCommands, RomArray))
    ensures Lookup(DictionaryTable, "RAM") == Some(Dictionary(RamCommands, MockRamAccess))
    ensures FindDictionary("RAM") == Some(1)
  {
    DefaultIffUnlisted(DictionaryTable, name);
    DictionaryListWellFormed();
    LookupListed(DictionaryTable, 0);
    LookupListed(DictionaryTable, 1);
  }

  /** The commented-out FRAM, I2CEEPROM and EEPROM dictionaries are not selectable. */
  lemma UnbuiltDictionaries()
    ensures FindDictionary("FRAM") == None
    ensures FindDictionary("EEPROM") == None
    ensures FindDictionary("I2CEEPROM") == None
  {
    assert Names(DictionaryTable.entries) == ["ROM", "RAM"];
  }
}
