/**
 * The holding-register block a gateway's Modbus server exposes: a
 * sequential data block of 16-bit registers, all zero at start, written by
 * the updater and read with function code 3 ("Read Holding Registers",
 * section 6.3 of the Modbus Application Protocol Specification V1.1b3).
 */
module Store {
  import opened Wrappers
  import opened Codec

  /** Section 6.3: a read asks for 1 to 125 (0x7D) registers. */
  const MAX_READ_COUNT: nat := 0x7D

  predicate InBlock(addr: int, count: int, size: int) {
    0 <= addr && 0 <= count && addr + count <= size
  }

  predicate ReadAllowed(addr: int, count: int, size: int) {
    1 <= count <= MAX_READ_COUNT && InBlock(addr, count, size)
  }

  /**
   * The block after writing `ws` from `addr` on: exactly the registers
   * `addr` .. `addr + |ws| - 1` take the new words, and only when that whole
   * range lies inside the block; every other register keeps its value.
   */
  function Overwrite(regs: seq<Word>, addr: int, ws: seq<Word>): (r: seq<Word>)
    ensures |r| == |regs|
    ensures forall k :: 0 <= k < |r| ==>
      r[k] == if InBlock(addr, |ws|, |regs|) && addr <= k < addr + |ws| then ws[k - addr] else regs[k]
  {
    if InBlock(addr, |ws|, |regs|) then regs[..addr] + ws + regs[addr + |ws|..] else regs
  }

  /**
   * The reply to a function-code-3 request for `count` registers from
   * `addr` against the block `regs`: the registers, or an exception response
   * (None) when the quantity is out of range or the range leaves the block.
   */
  function ReadReply(regs: seq<Word>, addr: int, count: int): (r: Option<seq<Word>>)
    ensures r.Some? <==> ReadAllowed(addr, count, |regs|)
    ensures r.Some? ==> |r.value| == count && forall k :: 0 <= k < count ==> r.value[k] == regs[addr + k]
  {
    if ReadAllowed(addr, count, |regs|) then Some(regs[addr..addr + count]) else None
  }

  /** Reading back a run just written into the block returns that run. */
  lemma ReadAfterWrite(regs: seq<Word>, addr: int, ws: seq<Word>)
    requires ReadAllowed(addr, |ws|, |regs|)
    ensures ReadReply(Overwrite(regs, addr, ws), addr, |ws|) == Some(ws)
  {
    assert Overwrite(regs, addr, ws)[addr..addr + |ws|] == ws;
  }

  class HoldingRegisters {
    const cells: array<Word>

    /** `ModbusSequentialDataBlock(0, [0] * size)`. */
    constructor (size: nat)
      ensures fresh(cells) && cells.Length == size
      ensures forall k :: 0 <= k < size ==> cells[k] == 0
    {
      cells := new Word[size](_ => 0);
    }

    function Contents(): seq<Word>
      reads cells
    {
      cells[..]
    }

    /** `setValues(3, addr, ws)`: write a run of registers into the block. */
    method SetValues(addr: int, ws: seq<Word>) returns (written: bool)
      modifies cells
      ensures written == InBlock(addr, |ws|, cells.Length)
      ensures Contents() == Overwrite(old(Contents()), addr, ws)
    {
      written := InBlock(addr, |ws|, cells.Length);
      if written {
        var j := 0;
        while j < |ws|
          invariant 0 <= j <= |ws|
          invariant forall k :: 0 <= k < cells.Length ==>
            cells[k] == if addr <= k < addr + j then ws[k - addr] else old(cells[k])
        {
          cells[addr + j] := ws[j];
          j := j + 1;
        }
      }
    }

    /** The server's handling of a function-code-3 request against this block. */
    method ReadHolding(addr: int, count: int) returns (r: Option<seq<Word>>)
      ensures r == ReadReply(Contents(), addr, count)
    {
      if ReadAllowed(addr, count, cells.Length) {
        r := Some(cells[addr..addr + count]);
      } else {
        r := None;
      }
    }
  }
}
