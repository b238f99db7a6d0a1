/**
 * Hardware keys: key names whose READ and WRITE go to a pair of handlers
 * instead of dictionary storage. "mock0" and "mock1" read back the digit at
 * the end of their own name and accept every write; any other key falls to
 * the fallback pair, which replies with error code 0.
 */
module HardwareKeys {
  import opened Wrappers
  import opened Replies
  import opened SentinelTable

  datatype RwHandler = MockRead | MockWrite | RwKeyMissing

  datatype HandlerPair = HandlerPair(read: RwHandler, write: RwHandler)

  /** `embedis_rw_keys` as written. */
  const RwKeyRows: seq<Row<HandlerPair>> := [
    Row(Some("mock0"), HandlerPair(MockRead, MockWrite)),
    Row(Some("mock1"), HandlerPair(MockRead, MockWrite)),
    Row(None, HandlerPair(RwKeyMissing, RwKeyMissing))
  ]

  const RwKeyTable: Table<HandlerPair> := Table([
    ("mock0", HandlerPair(MockRead, MockWrite)),
    ("mock1", HandlerPair(MockRead, MockWrite))
  ], HandlerPair(RwKeyMissing, RwKeyMissing))

  /** mock_READ: replies with the key argument from its fifth character on. */
  function MockReadReply(argv: seq<string>): (r: Reply)
    requires |argv| >= 2 && |argv[1]| >= 4
    ensures r.Simple? && argv[1] == argv[1][..4] + r.text
  {
    Simple(argv[1][4..])
  }

  /** mock_WRITE: does nothing and always replies OK. */
  function MockWriteReply(argv: seq<string>): Reply
  {
    Error(EmbedisOk)
  }

  /** rw_key_missing: replies with error code 0. */
  function RwKeyMissingReply(argv: seq<string>): Reply
  {
    Error(0)
  }

  /** Runs one handler of a pair on the request arguments. */
  function Run(h: RwHandler, argv: seq<string>): Reply
    requires h == MockRead ==> |argv| >= 2 && |argv[1]| >= 4
  {
    match h
    case MockRead => MockReadReply(argv)
    case MockWrite => MockWriteReply(argv)
    case RwKeyMissing => RwKeyMissingReply(argv)
  }

  /** The handler pair for a key. */
  function HandlersFor(key: string): HandlerPair
  {
    Lookup(RwKeyTable, key)
  }

  lemma RwKeyRowsLayout()
    ensures Terminated(RwKeyRows)
    ensures FromRows(RwKeyRows) == RwKeyTable
  {
    FromToRows(RwKeyTable);
  }

  /** The listed keys get the mock pair, every other key the fallback pair. */
  lemma HandlersForKey(key: string)
    ensures key == "mock0" || key == "mock1" ==> HandlersFor(key) == HandlerPair(MockRead, MockWrite)
    ensures key != "mock0" && key != "mock1" ==> HandlersFor(key) == HandlerPair(RwKeyMissing, RwKeyMissing)
  {
    assert Names(RwKeyTable.entries) == ["mock0", "mock1"];
    LookupListed(RwKeyTable, 0);
    LookupListed(RwKeyTable, 1);
  }

  /** READ of the hardware key `argv[1]`: its pair's read handler answers. */
  function HardwareRead(argv: seq<string>): Reply
    requires |argv| >= 2
  {
    HandlersForKey(argv[1]);
    Run(HandlersFor(argv[1]).read, argv)
  }

  /** WRITE of the hardware key `argv[1]`: its pair's write handler answers. */
  function HardwareWrite(argv: seq<string>): Reply
    requires |argv| >= 2
  {
    HandlersForKey(argv[1]);
    Run(HandlersFor(argv[1]).write, argv)
  }

  /** Reading "mock0" or "mock1" replies with the digit that ends the key: "0" or "1". */
  lemma ReadMockKey(argv: seq<string>)
    requires |argv| >= 2 && (argv[1] == "mock0" || argv[1] == "mock1")
    ensures HardwareRead(argv) == Simple([argv[1][4]])
    ensures argv[1] == "mock0" ==> HardwareRead(argv) == Simple("0")
    ensures argv[1] == "mock1" ==> HardwareRead(argv) == Simple("1")
  {
    HandlersForKey(argv[1]);
  }

  /** Writing either mock key replies OK whatever the payload. */
  lemma WriteMockKey(argv: seq<string>)
    requires |argv| >= 2 && (argv[1] == "mock0" || argv[1] == "mock1")
    ensures HardwareWrite(argv) == Error(EmbedisOk)
  {
    HandlersForKey(argv[1]);
  }

  /** Any other key falls to the fallback pair: both READ and WRITE reply with error code 0. */
  lemma UnlistedKey(argv: seq<string>)
    requires |argv| >= 2 && argv[1] != "mock0" && argv[1] != "mock1"
    ensures HardwareRead(argv) == Error(0)
    ensures HardwareWrite(argv) == Error(0)
  {
    HandlersForKey(argv[1]);
  }

  /**
   * A WRITE of a mock key and a WRITE of an unlisted key reply alike exactly
   * when `EMBEDIS_OK` is 0, which embedis.h decides and this model leaves open.
   */
  lemma WriteRepliesAgreeIffOkIsZero(mock: seq<string>, other: seq<string>)
    requires |mock| >= 2 && (mock[1] == "mock0" || mock[1] == "mock1")
    requires |other| >= 2 && other[1] != "mock0" && other[1] != "mock1"
    ensures HardwareWrite(mock) == HardwareWrite(other) <==> EmbedisOk == 0
  {
    WriteMockKey(mock);
    UnlistedKey(other);
  }

  /** A READ succeeds with a simple reply exactly for the listed keys. */
  lemma ReadRepliesSimpleIffListed(argv: seq<string>)
    requires |argv| >= 2
    ensures HardwareRead(argv).Simple? <==> argv[1] in Names(RwKeyTable.entries)
  {
    HandlersForKey(argv[1]);
    assert Names(RwKeyTable.entries) == ["mock0", "mock1"];
  }
}
