/**
 * The command table: command names mapped to their handlers, scanned in
 * declaration order, with `embedis_command_missing` as the fallback for a
 * name no entry matches. The built-in handlers are defined outside this
 * configuration and appear here by name only.
 */
module Commands {
  import opened Wrappers
  import opened Replies
  import opened SentinelTable

  /** The built-in handlers the table names (`ListCommands` is embedis_COMMANDS, the rest by their own names). */
  datatype Builtin = ListCommands | Select | Keys | Get | Set | Del | Read | Write | Publish | Subscribe | Unsubscribe

  datatype Handler = Builtin(builtin: Builtin) | CommandMissing

  /** `embedis_commands` as written: the named rows and the null-named fallback row. */
  const CommandRows: seq<Row<Handler>> := [
    Row(Some("COMMANDS"), Builtin(ListCommands)),
    Row(Some("SELECT"), Builtin(Select)),
    Row(Some("KEYS"), Builtin(Keys)),
    Row(Some("GET"), Builtin(Get)),
    Row(Some("SET"), Builtin(Set)),
    Row(Some("DEL"), Builtin(Del)),
    Row(Some("READ"), Builtin(Read)),
    Row(Some("WRITE"), Builtin(Write)),
    Row(Some("PUBLISH"), Builtin(Publish)),
    Row(Some("SUBSCRIBE"), Builtin(Subscribe)),
    Row(Some("UNSUBSCRIBE"), Builtin(Unsubscribe)),
    Row(None, CommandMissing)
  ]

  /** The same table as named entries and an explicit fallback. */
  const CommandTable: Table<Handler> := Table([
    ("COMMANDS", Builtin(ListCommands)),
    ("SELECT", Builtin(Select)),
    ("KEYS", Builtin(Keys)),
    ("GET", Builtin(Get)),
    ("SET", Builtin(Set)),
    ("DEL", Builtin(Del)),
    ("READ", Builtin(Read)),
    ("WRITE", Builtin(Write)),
    ("PUBLISH", Builtin(Publish)),
    ("SUBSCRIBE", Builtin(Subscribe)),
    ("UNSUBSCRIBE", Builtin(Unsubscribe))
  ], CommandMissing)

  /** embedis_command_missing: its one effect is an unknown-command error reply. */
  function MissingCommandReply(argv: seq<string>): Reply
  {
    Error(EmbedisUnknownCommand)
  }

  /** The handler the dispatcher runs for the command token `argv[0]`. */
  function HandlerFor(name: string): Handler
  {
    Lookup(CommandTable, name)
  }

  /**
   * The reply a request gets from the handler its token dispatches to. Only
   * the fallback's reply is part of this configuration; a built-in's reply is
   * not known here (`None`).
   */
  function CommandReply(argv: seq<string>): Option<Reply>
    requires |argv| > 0
  {
    match HandlerFor(argv[0])
    case CommandMissing => Some(MissingCommandReply(argv))
    case Builtin(_) => None
  }

  /** The C table has its null-named fallback last and only there, and reads as `CommandTable`. */
  lemma CommandRowsLayout()
    ensures Terminated(CommandRows)
    ensures FromRows(CommandRows) == CommandTable
    ensures ToRows(CommandTable) == CommandRows
  {
    FromToRows(CommandTable);
  }

  lemma CommandNamesUnique()
    ensures UniqueNames(Names(CommandTable.entries))
  {
  }

  /** Scanning the C table for a token gives the handler `HandlerFor` gives. */
  lemma ScanFindsHandler(name: string)
    ensures HasNullRow(CommandRows)
    ensures Scan(CommandRows, name) == HandlerFor(name)
  {
    CommandRowsLayout();
    ScanIsLookup(CommandRows, name);
  }

  /**
   * Dispatch falls to the fallback exactly when the token names no command,
   * and the fallback then replies with the unknown-command error.
   */
  lemma UnknownCommandDispatch(argv: seq<string>)
    requires |argv| > 0
    ensures HandlerFor(argv[0]) == CommandMissing <==> argv[0] !in Names(CommandTable.entries)
    ensures CommandReply(argv) == Some(Error(EmbedisUnknownCommand)) <==> argv[0] !in Names(CommandTable.entries)
  {
    DefaultIffUnlisted(CommandTable, argv[0]);
  }

  /** Every listed command reaches its own built-in handler. */
  lemma ListedCommandDispatch(i: nat)
    requires i < |CommandTable.entries|
    ensures HandlerFor(CommandTable.entries[i].0) == CommandTable.entries[i].1
    ensures HandlerFor(CommandTable.entries[i].0).Builtin?
  {
    CommandNamesUnique();
    LookupListed(CommandTable, i);
  }

  lemma CommandNames()
    ensures Names(CommandTable.entries) ==
      ["COMMANDS", "SELECT", "KEYS", "GET", "SET", "DEL", "READ", "WRITE", "PUBLISH", "SUBSCRIBE", "UNSUBSCRIBE"]
  {
  }

  /** Matching is exact: "GET" and "UNSUBSCRIBE" reach their handlers. */
  lemma DispatchListedExamples()
    ensures HandlerFor("GET") == Builtin(Get)
    ensures HandlerFor("UNSUBSCRIBE") == Builtin(Unsubscribe)
  {
    ListedCommandDispatch(3);
    ListedCommandDispatch(10);
  }

  /** A name outside the table dispatches to the fallback. */
  lemma UnlistedDispatch(name: string)
    requires name !in ["COMMANDS", "SELECT", "KEYS", "GET", "SET", "DEL", "READ", "WRITE", "PUBLISH", "SUBSCRIBE", "UNSUBSCRIBE"]
    ensures HandlerFor(name) == CommandMissing
  {
    CommandNames();
  }

  /** Under the exact name comparison, "get" is not "GET": every listed name is upper case. */
  lemma LowerCaseIsUnknown()
    ensures HandlerFor("get") == CommandMissing
  {
    var names := ["COMMANDS", "SELECT", "KEYS", "GET", "SET", "DEL", "READ", "WRITE", "PUBLISH", "SUBSCRIBE", "UNSUBSCRIBE"];
    forall k | 0 <= k < |names|
      ensures names[k] != "get"
    {
      assert names[k][0] != 'g';
    }
    UnlistedDispatch("get");
  }

  /** The commented-out PING command is not in the table. */
  lemma PingIsUnknown()
    ensures HandlerFor("PING") == CommandMissing
  {
    var names := ["COMMANDS", "SELECT", "KEYS", "GET", "SET", "DEL", "READ", "WRITE", "PUBLISH", "SUBSCRIBE", "UNSUBSCRIBE"];
    forall k | 0 <= k < |names|
      ensures names[k] != "PING"
    {
      assert |names[k]| != 4 || names[k][0] != 'P';
    }
    UnlistedDispatch("PING");
  }
}
