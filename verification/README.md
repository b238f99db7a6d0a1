# Embedis configuration, modelled in Dafny

Embedis is a small dictionary server for microcontrollers. Its configuration
file, `src/config.c`, wires concrete names into the server. It holds five
tables: the command table, the ROM dictionary, the dictionary list, the key
index and the hardware read/write keys. It also holds the pub/sub channel
list and a 64-byte mock RAM backend. The dispatcher, the parser and the
response functions are declared in `embedis.h` and defined elsewhere.

This project models what `config.c` itself determines:

- `sentinel_table.dfy` (module `SentinelTable`): the convention all the tables
  share. A table is an ordered array whose last row has a null name and holds
  the fallback. The model keeps it as named entries plus an explicit default
  (`Table`). It proves that this form and the C row layout (`Row`s ending in a
  null-named row) convert into each other. It also proves that a C-style scan
  over the rows equals the first-match lookup on the table.
- `arg_framing.dfy` (module `ArgFraming`): the argc/argv guarantee. Arguments
  lie one after another in one buffer, each followed by a zero byte. Pointers
  are modelled as offsets. The length of argument i is
  `argv[i+1] - argv[i] - 1`. Laying arguments out and splitting them again are
  proved inverse in both directions. A zero scan (`strlen`) is proved to give
  the true length exactly when the argument holds no zero byte.
- `mock_ram.dfy` (module `MockRam`): the mock RAM backend as a class over an
  `array<byte>`, with `Size`, `Fetch` and `Store` methods. Their contracts are
  tied to the sequence functions `Fetched` and `Stored`. Lemmas cover
  read-after-write, out-of-range stores, overwrites and commuting stores.
- `commands.dfy` (module `Commands`): the command table and
  `embedis_command_missing`.
- `dictionaries.dfy` (module `Dictionaries`): the ROM dictionary's flat
  key/value array, the pairwise walk a GET performs over it, and the
  dictionary list with its default.
- `key_index.dfy` (module `KeyIndex`): key names mapped to ids in 1..32767.
- `hardware_keys.dfy` (module `HardwareKeys`): `mock_READ`, `mock_WRITE`,
  `rw_key_missing` and the table that routes a key to a handler pair.
- `pubsub.dfy` (module `PubSub`): the channel list and the length of the
  subscription array.
- `wrappers.dfy`, `bytes.dfy`, `replies.dfy`: `Option`, an unsigned `byte`
  type, and the abstract reply a handler produces (`Simple(text)` or
  `Error(code)`).

A handler's observable behaviour is the one reply it produces. The model
gives an error reply an integer code. The named codes `EMBEDIS_OK` and
`EMBEDIS_UNKNOWN_COMMAND` are the integer constants `EmbedisOk` and
`EmbedisUnknownCommand`. Their values are defined in embedis.h, so the model
gives them none. A literal code, such as the `0` of `rw_key_missing`, is that
integer.

## Model

| member | source | states |
|---|---|---|
| SentinelTable.FromRows | src/config.c:48-63 | Reading a null-terminated C table gives one entry per row before the terminator, in order; the terminator's value becomes the default |
| SentinelTable.ToRows | src/config.c:48-63 | Writing a table in C layout gives exactly one null-named row, placed last and holding the default, after the entries in order |
| SentinelTable.FromToRows | src/config.c:48-63 | Writing a table as rows and reading it back gives the same table |
| SentinelTable.ToFromRows | src/config.c:48-63 | Reading a terminated row array and writing it back gives the same rows |
| SentinelTable.IndexOf | src/config.c:48-63 | The result is absent exactly when the name is not listed; otherwise it is an index holding the name, with no earlier index holding it (first match, exact comparison) |
| SentinelTable.Lookup | src/config.c:41-63 | An unlisted name yields the default; a listed name yields the value of an entry with that name |
| SentinelTable.LookupFirstMatch | src/config.c:48-63 | The declaration-order scan returns the earliest entry with the name |
| SentinelTable.LookupListed | src/config.c:48-63 | When names are unique, every entry is reached by its own name |
| SentinelTable.LookupSkipsHead | src/config.c:48-63 | A first entry that does not match is skipped, and the lookup continues in the rest of the table |
| SentinelTable.DefaultIffUnlisted | src/config.c:41-63 | When no entry holds the default value, a lookup yields the default exactly when the name is unlisted (both directions) |
| SentinelTable.ScanStopsAt | src/config.c:48-63 | The C scan stops at the first row that is either the null terminator or a match |
| SentinelTable.Scan | src/config.c:48-63 | The C-style walk over the rows to the first null-named or matching row; `ScanStopsAt` states where it stops and `ScanIsLookup` that it equals first-match lookup with fallback |
| SentinelTable.ScanIsLookup | src/config.c:48-63 | Scanning the C rows up to the null name gives the same value as the first-match lookup with fallback |
| ArgFraming.Arg | src/config.c:33-38 | An argument taken from a contiguous frame has length `argv[i+1] - argv[i] - 1` |
| ArgFraming.Split | src/config.c:33-38 | Defines the argc arguments of a frame by the length rule; its meaning is the round trip `SplitLay` and `LaySplit` prove, inverse to `Lay` in both directions |
| ArgFraming.AppendContiguous | src/config.c:33-38 | Appending an argument and its terminator keeps the frame contiguous, keeps the earlier arguments and adds the new one last |
| ArgFraming.Lay | src/config.c:33-38 | Laying out n arguments gives n+1 offsets |
| ArgFraming.LayIsContiguous | src/config.c:33-38 | Any arguments, zero bytes included, laid out contiguously satisfy the guarantee; the length rule gives each argument's true length and the bytes between the offsets are the argument |
| ArgFraming.SplitLay | src/config.c:33-38 | Splitting a laid-out request returns the original arguments |
| ArgFraming.LaySplit | src/config.c:33-38 | Every frame meeting the contiguity guarantee is the layout of its own arguments |
| ArgFraming.StrLen | src/config.c:33-38 | strlen counts the bytes before the first zero byte, none of which is zero |
| ArgFraming.StrLenVersusRule | src/config.c:33-38 | A zero scan never exceeds the length rule, and it equals the rule exactly when the argument holds no zero byte |
| ArgFraming.EmbeddedZeroInLastArgument | src/config.c:33-38 | Take "SET" followed by the payload 01 00 02 as the last argument. The rule gives 3 bytes, the argument is exactly the payload, and a zero scan reports 1 |
| MockRam.FetchAfterStore | src/config.c:85-93 | After a store, a fetch at the stored in-range position returns the stored byte; any other fetch returns what it returned before |
| MockRam.StoreOutOfRange | src/config.c:90-91 | A store at or past the end leaves the buffer and every fetch unchanged |
| MockRam.StoreFetched | src/config.c:85-93 | Storing back the byte just fetched leaves the buffer unchanged, at every position, including past the end where the 0xFF fetched is not stored |
| MockRam.StoreOverwrites | src/config.c:90-93 | A second store to a position replaces the first |
| MockRam.StoresCommute | src/config.c:90-93 | Stores to different positions commute |
| MockRam.MockRam.constructor | src/config.c:77-79 | The static 64-byte buffer starts zero-filled |
| MockRam.MockRam.Size | src/config.c:81-83 | Size is always 64, the length of the buffer |
| MockRam.MockRam.Fetch | src/config.c:85-88 | Fetch returns the byte at an in-range position and 0xFF at or past the end |
| MockRam.MockRam.Store | src/config.c:90-93 | An in-range store writes the byte at that position only; a store at or past the end changes nothing |
| MockRam.StoreThenFetch | src/config.c:85-93 | After a store then a fetch at the same position, the buffer is `Stored(old, pos, v)` and the fetch returns the stored byte in range, or 0xFF with the buffer untouched past the end |
| Commands.CommandRowsLayout | src/config.c:48-63 | The command array has its null-named fallback last and only there, and converts to and from the explicit table |
| Commands.CommandNamesUnique | src/config.c:48-63 | No command name is listed twice |
| Commands.ScanFindsHandler | src/config.c:48-63 | Scanning the C command array for a token finds the handler the table lookup gives |
| Commands.MissingCommandReply | src/config.c:41-45 | `embedis_command_missing` replies with the error `EMBEDIS_UNKNOWN_COMMAND` whatever the arguments; `UnknownCommandDispatch` proves a request gets that reply exactly when its token names no command |
| Commands.HandlerFor | src/config.c:48-63 | The handler a command token dispatches to; `ScanFindsHandler` ties it to the C scan, `UnknownCommandDispatch`, `ListedCommandDispatch` and `UnlistedDispatch` say which tokens reach which handler |
| Commands.CommandReply | src/config.c:41-63 | The reply of the handler a token dispatches to, known only for the fallback; `UnknownCommandDispatch` proves it is the unknown-command error exactly for unlisted tokens |
| Commands.UnknownCommandDispatch | src/config.c:41-63 | A token dispatches to the fallback exactly when it names no command. A request's reply is the unknown-command error from `embedis_command_missing` exactly when its token names no command |
| Commands.ListedCommandDispatch | src/config.c:48-63 | Every listed command reaches its own built-in handler, never the fallback |
| Commands.DispatchListedExamples | src/config.c:53-60 | "GET" and "UNSUBSCRIBE" reach their built-in handlers |
| Commands.UnlistedDispatch | src/config.c:48-63 | A token outside the eleven listed names dispatches to the fallback |
| Commands.LowerCaseIsUnknown | src/config.c:48-63 | All eleven names are upper case, so under the model's exact name comparison (see `SentinelTable.IndexOf` under Left out) "get" dispatches to the fallback |
| Commands.PingIsUnknown | src/config.c:52 | The commented-out PING is not a command |
| Dictionaries.RomTable | src/config.c:65-70 | Key i of the flat ROM array is string 2i and its value is string 2i+1, never null; a missing key has no value |
| Dictionaries.RomScan | src/config.c:65-70 | The pairwise walk over the flat ROM array to the null key; `RomScanIsLookup` proves it equals first-match lookup on `RomTable` |
| Dictionaries.RomGet | src/config.c:65-70 | The value the ROM dictionary holds for a key; `RomVendor` proves "vendor" gives "PatternAgents", every other key nothing, and the walk agrees |
| Dictionaries.RomScanIsLookup | src/config.c:65-70 | Walking the flat array two strings at a time up to the null key gives the first-match lookup on its table |
| Dictionaries.RomStringsWellFormed | src/config.c:67-70 | The ROM array holds an even number of strings before the null key and reads as the single pair vendor to PatternAgents |
| Dictionaries.RomVendor | src/config.c:65-70 | Looking up "vendor" returns "PatternAgents"; every other key has no value |
| Dictionaries.DictionaryRowsLayout | src/config.c:103-112 | The dictionary list is null-terminated and reads as the explicit table |
| Dictionaries.DictionaryListWellFormed | src/config.c:101-112 | Dictionary names are unique and the default selection, the first entry, is "ROM" |
| Dictionaries.DictionaryLookup | src/config.c:103-112 | A name is found exactly when the table gives it a dictionary. "ROM" uses the ROM commands over the string array. "RAM" uses the RAM commands over the mock RAM access record |
| Dictionaries.FindDictionary | src/config.c:101-112 | The position of a dictionary in the list by name; `DictionaryLookup` proves it is found exactly for listed names, and `UnbuiltDictionaries` that the commented-out ones are not |
| Dictionaries.UnbuiltDictionaries | src/config.c:108-110 | The commented-out FRAM, I2CEEPROM and EEPROM dictionaries cannot be found |
| KeyIndex.KeyRowsLayout | src/config.c:117-120 | The key index is null-terminated and reads as the explicit table with fallback 0 |
| KeyIndex.KeyTableValid | src/config.c:114-120 | Every id is in 1..32767 and used once, names are unique, and the fallback is 0 |
| KeyIndex.IdsOfValidIndex | src/config.c:114-120 | In a valid index, a lookup gives 0 exactly for unlisted keys and an in-range id otherwise; different keys get different ids |
| KeyIndex.KeyId | src/config.c:114-120 | The id of a key name, 0 for an unmapped key; `IdsOfValidIndex` and `KeyIdExamples` prove 0 occurs exactly for unmapped keys and "asset_identification" is 1000 |
| KeyIndex.KeyIdExamples | src/config.c:117-120 | "asset_identification" maps to 1000; every other key maps to 0 (no id) |
| HardwareKeys.MockReadReply | src/config.c:124-127 | mock_READ replies with the key argument from its fifth character on |
| HardwareKeys.RwKeyRowsLayout | src/config.c:140-144 | The hardware key array is null-terminated and reads as the explicit table with the fallback pair |
| HardwareKeys.HandlersForKey | src/config.c:140-144 | "mock0" and "mock1" get the mock read/write pair; every other key gets the fallback pair |
| HardwareKeys.MockWriteReply | src/config.c:129-132 | `mock_WRITE` replies with the error `EMBEDIS_OK` whatever the arguments; `WriteMockKey` proves this is the reply to WRITE of either mock key |
| HardwareKeys.RwKeyMissingReply | src/config.c:134-138 | `rw_key_missing` replies with error code 0 whatever the arguments; `UnlistedKey` proves this is the reply to READ and WRITE of any unlisted key |
| HardwareKeys.HandlersFor | src/config.c:140-144 | The read/write handler pair of a key; `HandlersForKey` proves the mock keys get the mock pair and every other key the fallback pair |
| HardwareKeys.HardwareRead | src/config.c:124-144 | The reply to READ of a hardware key, from its pair's read handler; `ReadMockKey`, `UnlistedKey` and `ReadRepliesSimpleIffListed` state it for every key |
| HardwareKeys.HardwareWrite | src/config.c:129-144 | The reply to WRITE of a hardware key, from its pair's write handler; `WriteMockKey`, `UnlistedKey` and `WriteRepliesAgreeIffOkIsZero` state it for every key |
| HardwareKeys.ReadMockKey | src/config.c:124-144 | READ of "mock0" or "mock1" replies with the digit that ends the key name, "0" or "1" |
| HardwareKeys.WriteMockKey | src/config.c:129-144 | WRITE of either mock key runs `mock_WRITE`, which replies with `EMBEDIS_OK` whatever the other arguments are |
| HardwareKeys.UnlistedKey | src/config.c:134-144 | READ and WRITE of any other key run `rw_key_missing`, which replies with error code 0 |
| HardwareKeys.WriteRepliesAgreeIffOkIsZero | src/config.c:129-144 | A WRITE of a mock key and a WRITE of any other key get the same reply exactly when `EMBEDIS_OK` is 0; the model leaves that value open |
| HardwareKeys.ReadRepliesSimpleIffListed | src/config.c:124-144 | A READ gets a simple (non-error) reply exactly when the key is listed |
| PubSub.ChannelListWellFormed | src/config.c:152-158 | The channel array is null-terminated with unique names. The subscription array has one slot per channel, terminator excluded: 2 |
| PubSub.ChannelIndex | src/config.c:152-156 | The slot of a channel by name; `ChannelSlot` proves a found slot lies in the subscription array and an unknown name has none, `ChannelExamples` gives the slots |
| PubSub.ChannelSlot | src/config.c:152-158 | A channel found by name always has a slot in the subscription array; an unknown name has none |
| PubSub.ChannelExamples | src/config.c:152-156 | "temperature" is slot 0, "humidity" slot 1, "pressure" is not a channel |

## Left out

- The response functions, the built-in command handlers and the two ROM/RAM command sets are declared in embedis.h but defined elsewhere. The handlers are `embedis_GET`, `embedis_SET`, `embedis_SELECT`, `embedis_PUBLISH` and the rest. The model names them and does not give them behaviour. embedis.h is not part of this model.
- The numeric values of `EMBEDIS_OK` and `EMBEDIS_UNKNOWN_COMMAND` are defined in embedis.h. The model gives `EmbedisOk` and `EmbedisUnknownCommand` no value, so it does not decide whether `rw_key_missing`'s code 0 equals `EMBEDIS_OK`.
- SentinelTable.IndexOf: names are matched by exact, case-sensitive equality of the whole string. This is an assumption about the dispatcher and the handlers that scan the tables, which are outside config.c. It applies to every table: commands, dictionaries, the key index, the hardware keys and the channels.
- Commands.CommandReply: the built-in handlers' replies are not part of config.c, so a request that reaches a built-in has no modelled reply (`None`).
- The dispatcher's table-scanning loops live outside config.c. The model states the lookup they imply: first match in declaration order, else the null-named row. `Scan` and `RomScan` give that rule over the C layout.
- SELECT's selection state, pub/sub subscriber identity and message delivery are kept by code outside config.c. Only the default selection and the subscription array's length are modelled. The bytes of the subscription array are not.
- The transport, and the parser that produces argc/argv, are not modelled.
- The mock RAM buffer is C `char`, and fetch returns 0xFF as `char`, which may be signed. The model reads every byte as unsigned (0..255).
- Positions are unbounded naturals rather than `size_t`. Fetch and store only compare them with 64, so the width does not matter.
- The access record `mock_ram_access` is a struct of three function pointers. It is modelled as the three methods of the `MockRam` class, and the dictionary list names it as the `MockRamAccess` backend.
- The commented-out FRAM, I2CEEPROM and EEPROM backends and the PING command are not compiled. They appear only as names that lookups do not find.
- ArgFraming.Frame: the length rule needs an offset for argument argc, one past the last terminator, so the last argument's length can be computed. The model includes that offset. Whether the parser stores it is parser code, which is not part of this model.
- Handlers receive argv as the C strings their pointers denote. The model does not tie this view to byte buffers of `ArgFraming`.
- HardwareKeys.MockReadReply: requires the key argument to have at least four characters, because `mock_READ` reads from offset 4. Through the table it is reached only for "mock0" and "mock1".
- HardwareKeys.HardwareRead and HardwareKeys.HardwareWrite model only the routing of `argv[1]` through the key table. The argument checks that READ and WRITE perform are in code outside config.c.
- KeyIndex.KeyId: an unmapped key yields the terminator's 0, as the C table does. It does not yield a separate not-found result. `IdsOfValidIndex` proves that 0 occurs exactly for unmapped keys.
