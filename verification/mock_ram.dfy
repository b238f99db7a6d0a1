/**
 * The mock RAM backend: a fixed 64-byte buffer behind the three-operation
 * backend access record (size, fetch, store) that the RAM dictionary reads
 * and writes through. Fetch and store are total: a position at or past the
 * end reads as 0xFF and is never written.
 */
module MockRam {
  import opened Bytes

  /** MOCK_RAM_SIZE. */
  const MockRamSize: nat := 64

  /** What a fetch at or past the end returns. */
  const OutOfRange: byte := 0xFF

  /** The byte `fetch(pos)` returns when the buffer holds `cells`. */
  function Fetched(cells: seq<byte>, pos: nat): byte
  {
    if pos < |cells| then cells[pos] else OutOfRange
  }

  /** The buffer after `store(pos, v)`; a position at or past the end is ignored. */
  function Stored(cells: seq<byte>, pos: nat, v: byte): (r: seq<byte>)
    ensures |r| == |cells|
  {
    if pos < |cells| then cells[pos := v] else cells
  }

  /** A fetch after a store sees the stored byte at that position and the old byte everywhere else. */
  lemma FetchAfterStore(cells: seq<byte>, pos: nat, v: byte, q: nat)
    ensures Fetched(Stored(cells, pos, v), q) ==
            if q == pos && pos < |cells| then v else Fetched(cells, q)
  {
  }

  /** A store out of range leaves every byte as it was. */
  lemma StoreOutOfRange(cells: seq<byte>, pos: nat, v: byte)
    requires pos >= |cells|
    ensures Stored(cells, pos, v) == cells
    ensures forall q: nat :: Fetched(Stored(cells, pos, v), q) == Fetched(cells, q)
  {
  }

  /** Storing back what was fetched changes nothing, at any position: past the end both sides are no-ops. */
  lemma StoreFetched(cells: seq<byte>, pos: nat)
    ensures Stored(cells, pos, Fetched(cells, pos)) == cells
  {
  }

  /** A second store to the same position overwrites the first. */
  lemma StoreOverwrites(cells: seq<byte>, pos: nat, v: byte, w: byte)
    ensures Stored(Stored(cells, pos, v), pos, w) == Stored(cells, pos, w)
  {
  }

  /** Stores to different positions commute. */
  lemma StoresCommute(cells: seq<byte>, p: nat, v: byte, q: nat, w: byte)
    requires p != q
    ensures Stored(Stored(cells, p, v), q, w) == Stored(Stored(cells, q, w), p, v)
  {
  }

  /** `static char mock_ram[MOCK_RAM_SIZE]` with its access functions. */
  class MockRam {
    var cells: array<byte>

    ghost predicate Valid()
      reads this
    {
      cells.Length == MockRamSize
    }

    /** A static buffer starts zero-filled. */
    constructor ()
      ensures Valid() && fresh(cells)
      ensures forall i :: 0 <= i < cells.Length ==> cells[i] == 0
    {
      cells := new byte[MockRamSize](_ => 0);
    }

    /** mock_ram_size: always the capacity of the buffer. */
    method Size() returns (n: nat)
      requires Valid()
      ensures n == MockRamSize && n == cells.Length
    {
      n := MockRamSize;
    }

    /** mock_ram_fetch: the byte at `pos`, or 0xFF at or past the end. */
    method Fetch(pos: nat) returns (b: byte)
      requires Valid()
      ensures pos >= MockRamSize ==> b == OutOfRange
      ensures pos < MockRamSize ==> b == cells[pos]
      ensures b == Fetched(cells[..], pos)
    {
      if pos >= MockRamSize {
        return OutOfRange;
      }
      b := cells[pos];
    }

    /** mock_ram_store: writes `v` at `pos`; at or past the end it does nothing. */
    method Store(pos: nat, v: byte)
      requires Valid()
      modifies cells
      ensures Valid()
      ensures pos >= MockRamSize ==> unchanged(cells)
      ensures pos < MockRamSize ==> cells[pos] == v
      ensures forall i :: 0 <= i < MockRamSize && i != pos ==> cells[i] == old(cells[i])
      ensures cells[..] == Stored(old(cells[..]), pos, v)
    {
      if pos >= MockRamSize {
        return;
      }
      cells[pos] := v;
    }
  }

  /** A store followed by a fetch of the same position returns the stored byte, or 0xFF out of range. */
  method StoreThenFetch(ram: MockRam, pos: nat, v: byte) returns (b: byte)
    requires ram.Valid()
    modifies ram.cells
    ensures ram.Valid()
    ensures pos < MockRamSize ==> b == v
    ensures pos >= MockRamSize ==> b == OutOfRange && unchanged(ram.cells)
    ensures ram.cells[..] == Stored(old(ram.cells[..]), pos, v)
    ensures b == Fetched(ram.cells[..], pos)
  {
    ram.Store(pos, v);
    b := ram.Fetch(pos);
  }
}
