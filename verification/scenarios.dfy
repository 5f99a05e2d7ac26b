/** Concrete runs from construction that show how the protocol behaves as
    written, including where it departs from a fully coherent design. */
module Scenarios {
  import opened Results
  import opened MainMemory
  import opened DataCache
  import opened Coherence

  /** Core 0 stores 42 at address 0 (a miss filled from memory, 32 cycles);
      core 1 then loads address 0. Core 0 writes the block back and drops to
      Clean, core 1 receives 42 over the peer link, and core 1 is charged 2
      cycles: the peer's write-back is not part of the reader's cost. */
  lemma PeerWriteBackNotCharged()
    ensures var w := Write(NewSystem(), 0, 0, 42);
      && w.Ok? && w.value.cost == MemoryCost
      && var r := Read(w.value.sys, 1, 0);
      && r.Ok?
      && r.value.value == 42
      && r.value.cost == TransferCost
      && r.value.sys.caches[0][0] == Line(0, Clean, [42, 1, 1, 1])
      && r.value.sys.caches[1][0] == Line(0, Clean, [42, 1, 1, 1])
      && r.value.sys.mem.data[0] == 42
  {

  }

  /** A store miss served by the peer leaves the peer's copy resident and
      Clean. Core 0 loads address 0, core 1 stores 7 there, and core 0's
      next load hits its own copy and returns the old value 1. The state in
      between has block 0 Modified in core 1 and resident in core 0. */
  lemma StaleReadAfterPeerStoreMiss()
    ensures var r0 := Read(NewSystem(), 0, 0);
      && r0.Ok? && r0.value.value == 1
      && var w := Write(r0.value.sys, 1, 0, 7);
      && w.Ok? && w.value.cost == TransferCost
      && ModifiedIn(w.value.sys.caches[1], 0)
      && Resident(w.value.sys.caches[0], 0)
      && !ModifiedIsExclusive(w.value.sys)
      && var r1 := Read(w.value.sys, 0, 0);
      && r1 == Ok(Loaded(w.value.sys, 1, HitCost))
  {

  }

  /** Address 384 passes the memory range check, so a store there fills
      block 24 (line 0) from memory. Evicting that Modified line later
      writes it back at address 384, one block past the data store. */
  lemma LastBlockEvictionFaults()
    ensures var w := Write(NewSystem(), 0, DataLimit, 5);
      && w.Ok?
      && ModifiedIn(w.value.sys.caches[0], DataBlocks)
      && Read(w.value.sys, 0, 0) == Err(IndexOutOfBounds(DataWords))
  {

  }

  /** A block stored at address 16 is not what a block read at 16 returns:
      the read takes words 0..3 instead of words 4..7. */
  lemma BlockOneDoesNotRoundTrip()
    ensures var m := WriteDataBlock(NewMemory(), 16, [5, 6, 7, 8]);
      && m.Ok?
      && m.value.data[4 .. 8] == [5, 6, 7, 8]
      && ReadDataBlock(m.value, 16) == Ok([1, 1, 1, 1])
  {
    var m := WriteDataBlock(NewMemory(), 16, [5, 6, 7, 8]).value;
    assert m.data[4 .. 8] == [5, 6, 7, 8];
    assert ReadDataBlock(m, 16).value == [1, 1, 1, 1];
  }

  /** A store hit invalidates the peer's copy without writing it back, so
      a peer that holds the block Modified loses its update. Core 0 loads
      address 0; core 1 stores 7 there (a miss, so core 0 keeps a Clean
      copy); core 0 stores 9 at address 4, a hit on the same block, which
      drops core 1's Modified copy. Core 1 then reloads address 0 from
      core 0 and reads 1, and memory never received the 7. */
  lemma LostUpdateOnHitInvalidate()
    ensures var r0 := Read(NewSystem(), 0, 0);
      && r0.Ok?
      && var w1 := Write(r0.value.sys, 1, 0, 7);
      && w1.Ok? && ModifiedIn(w1.value.sys.caches[1], 0)
      && var w2 := Write(w1.value.sys, 0, 4, 9);
      && w2.Ok? && w2.value.cost == HitCost
      && !Resident(w2.value.sys.caches[1], 0)
      && var r1 := Read(w2.value.sys, 1, 0);
      && r1.Ok?
      && r1.value.value == 1
      && r1.value.sys.mem.data[0] == 1
      && r1.value.sys.caches[1][0] == Line(0, Clean, [1, 9, 1, 1])
  {
  }
}
