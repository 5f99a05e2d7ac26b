/** Main memory (`Memoria`): a 96-word data store and a 640-word instruction
    store. Data addresses are byte addresses; a data block is 4 words and
    covers 16 addresses. Instruction addresses start at `InstrBase`. */
module MainMemory {
  import opened Results

  const DataWords: int := 96          // TAMDATOS
  const InstrWords: int := 640        // TAMINSTRUCCIONES
  const BlockWords: int := 4
  const InstrBlockWords: int := 16
  /** Largest data address the range check admits: TAMDATOS * 4. */
  const DataLimit: int := DataWords * 4
  /** Number of whole data blocks: addresses 0 .. DataLimit - 1. */
  const DataBlocks: int := DataWords / BlockWords
  /** Address of the first instruction word. */
  const InstrBase: int := 384

  datatype Memory = Memory(data: seq<int>, instr: seq<int>)

  predicate Valid(m: Memory) {
    |m.data| == DataWords && |m.instr| == InstrWords
  }

  /** The constructor: every data word holds 1, every instruction word 0. */
  function NewMemory(): (m: Memory)
    ensures Valid(m)
    ensures forall j :: 0 <= j < |m.data| ==> m.data[j] == 1
    ensures forall j :: 0 <= j < |m.instr| ==> m.instr[j] == 0
  {
    Memory(seq(DataWords, _ => 1), seq(InstrWords, _ => 0))
  }

  /** Data block `t`, one of the blocks of the data store, holds `words`. */
  predicate BlockHolds(m: Memory, t: int, words: seq<int>) {
    && Valid(m) && 0 <= t < DataBlocks && |words| == BlockWords
    && forall k :: 0 <= k < BlockWords ==> m.data[t * BlockWords + k] == words[k]
  }

  /** The range check both data-block accesses perform. It admits
      `DataLimit` itself, one address past the last block. */
  predicate DataAddressAdmitted(dir: int) {
    0 <= dir <= DataLimit
  }

  /** First data word written by a block write at `dir`: the block's own words. */
  function WriteOffset(dir: int): int {
    (dir / 16) * BlockWords
  }

  /** First data word returned by a block read at `dir`. This is the offset
      the read uses, which is the block's own offset only for block 0. */
  function ReadOffset(dir: int): int {
    ((dir / 16) % 16) / 4
  }

  /** `escribirBloqueDatos`: store the 4 words of `blk` as the block holding `dir`. */
  function WriteDataBlock(m: Memory, dir: int, blk: seq<int>): (r: Result<Memory>)
    requires Valid(m) && |blk| == BlockWords
    ensures r.Ok? <==> 0 <= dir < DataLimit
    ensures !DataAddressAdmitted(dir) ==> r == Err(AddressOutOfRange(dir))
    ensures dir == DataLimit ==> r == Err(IndexOutOfBounds(DataWords))
    ensures r.Ok? ==> Valid(r.value) && r.value.instr == m.instr
    ensures r.Ok? ==> forall k :: 0 <= k < BlockWords ==> r.value.data[WriteOffset(dir) + k] == blk[k]
    ensures r.Ok? ==> forall j :: 0 <= j < DataWords && !(WriteOffset(dir) <= j < WriteOffset(dir) + BlockWords) ==>
                        r.value.data[j] == m.data[j]
  {
    if !DataAddressAdmitted(dir) then Err(AddressOutOfRange(dir))
    else
      var pos := WriteOffset(dir);
      // the first word stored is the first one out of bounds
      if pos + BlockWords > DataWords then Err(IndexOutOfBounds(pos))
      else Ok(m.(data := m.data[pos := blk[0]][pos + 1 := blk[1]][pos + 2 := blk[2]][pos + 3 := blk[3]]))
  }

  /** `leerBloqueDatos`: the 4 words starting at `ReadOffset(dir)`. */
  function ReadDataBlock(m: Memory, dir: int): (r: Result<seq<int>>)
    requires Valid(m)
    ensures r.Err? <==> !DataAddressAdmitted(dir)
    ensures r.Err? ==> r.fault == AddressOutOfRange(dir)
    ensures r.Ok? ==> |r.value| == BlockWords
    ensures r.Ok? ==> forall k :: 0 <= k < BlockWords ==> r.value[k] == m.data[ReadOffset(dir) + k]
  {
    if !DataAddressAdmitted(dir) then Err(AddressOutOfRange(dir))
    else
      var pos := ReadOffset(dir);
      Ok(m.data[pos .. pos + BlockWords])
  }

  /** Every admitted block read stays inside the first 7 data words, so it
      never indexes out of bounds. */
  lemma ReadWindowIsLow(dir: int)
    requires DataAddressAdmitted(dir)
    ensures 0 <= ReadOffset(dir) <= 3
    ensures ReadOffset(dir) + BlockWords <= 7
  {
  }

  /** A fresh memory returns four ones for a block read at any admitted
      address. */
  lemma FreshBlocksAreOnes(dir: int)
    requires DataAddressAdmitted(dir)
    ensures ReadDataBlock(NewMemory(), dir) == Ok([1, 1, 1, 1])
  {
    var blk := ReadDataBlock(NewMemory(), dir).value;
    assert blk[0] == 1 && blk[1] == 1 && blk[2] == 1 && blk[3] == 1;
    assert blk == [1, 1, 1, 1];
  }

  /** Block 0 round-trips through memory. */
  lemma BlockZeroRoundTrip(m: Memory, dir: int, blk: seq<int>)
    requires Valid(m) && |blk| == BlockWords
    requires 0 <= dir < 16
    ensures WriteDataBlock(m, dir, blk).Ok?
    ensures ReadDataBlock(WriteDataBlock(m, dir, blk).value, dir) == Ok(blk)
  {
    var m' := WriteDataBlock(m, dir, blk).value;
    assert ReadOffset(dir) == 0 && WriteOffset(dir) == 0;
    assert ReadDataBlock(m', dir).value == blk;
  }

  /** For any other block, the read window and the written block are
      disjoint: a block write is never visible to a block read at the same
      address. */
  lemma WritesBeyondBlockZeroInvisible(m: Memory, dir: int, blk: seq<int>)
    requires Valid(m) && |blk| == BlockWords
    requires 16 <= dir < DataLimit
    ensures WriteDataBlock(m, dir, blk).Ok?
    ensures ReadDataBlock(WriteDataBlock(m, dir, blk).value, dir) == ReadDataBlock(m, dir)
  {

  }

  /** `escribirInstruccion`: store `ins` starting at instruction address `dir`. */
  function WriteInstruction(m: Memory, dir: int, ins: seq<int>): (r: Result<Memory>)
    requires Valid(m)
    ensures r.Ok? <==> InstrBase <= dir && dir - InstrBase + |ins| <= InstrWords
    ensures (dir < InstrBase || dir - InstrBase > InstrWords) ==> r == Err(AddressOutOfRange(dir - InstrBase))
    ensures InstrBase <= dir <= InstrBase + InstrWords && dir - InstrBase + |ins| > InstrWords ==>
              r == Err(IndexOutOfBounds(InstrWords))
    ensures r.Ok? ==> Valid(r.value) && r.value.data == m.data
    ensures r.Ok? ==> forall k :: 0 <= k < |ins| ==> r.value.instr[dir - InstrBase + k] == ins[k]
    ensures r.Ok? ==> forall j :: 0 <= j < InstrWords && !(dir - InstrBase <= j < dir - InstrBase + |ins|) ==>
                        r.value.instr[j] == m.instr[j]
  {
    var d := dir - InstrBase;
    if d < 0 || d > InstrWords then Err(AddressOutOfRange(d))
    // the loop stores words in order and faults on the first index past the end
    else if d + |ins| > InstrWords then Err(IndexOutOfBounds(InstrWords))
    else Ok(m.(instr := m.instr[..d] + ins + m.instr[d + |ins|..]))
  }

  /** `leerBloqueInstrucciones`: the 16 instruction words of block `n`. */
  function ReadInstructionBlock(m: Memory, n: int): (r: Result<seq<int>>)
    requires Valid(m)
    ensures r.Ok? <==> 0 <= n < InstrWords / InstrBlockWords
    ensures (n < 0 || n * InstrBlockWords > InstrWords) ==> r == Err(AddressOutOfRange(n * InstrBlockWords))
    ensures n * InstrBlockWords == InstrWords ==> r == Err(IndexOutOfBounds(InstrWords))
    ensures r.Ok? ==> |r.value| == InstrBlockWords
    ensures r.Ok? ==> forall k :: 0 <= k < InstrBlockWords ==> r.value[k] == m.instr[n * InstrBlockWords + k]
  {
    var pos := n * InstrBlockWords;
    if pos < 0 || pos > InstrWords then Err(AddressOutOfRange(pos))
    else if pos + InstrBlockWords > InstrWords then Err(IndexOutOfBounds(pos))
    else Ok(m.instr[pos .. pos + InstrBlockWords])
  }

  /** A 16-word block written at the address of instruction block `n` is
      read back unchanged. */
  lemma InstructionRoundTrip(m: Memory, n: int, blk: seq<int>)
    requires Valid(m) && |blk| == InstrBlockWords
    requires 0 <= n < InstrWords / InstrBlockWords
    ensures WriteInstruction(m, InstrBase + n * InstrBlockWords, blk).Ok?
    ensures ReadInstructionBlock(WriteInstruction(m, InstrBase + n * InstrBlockWords, blk).value, n) == Ok(blk)
  {

  }
}
