# Two-core data caches with snooping, in Dafny

This project models the data-side memory system of a two-core simulator.
Each core has a private data cache (`CacheDatosD`): 8 direct-mapped lines,
4 words per line, write-back, with a per-line flag `I`/`C`/`M` (Invalid,
Clean, Modified). The two caches snoop each other and share one main memory
(`Memoria`), which holds 96 data words and 640 instruction words.

The source keeps a reference from each cache to the other. The model
instead treats both caches and the memory as one immutable `System` value.
Every cache operation takes a core index (0 or 1) and returns the new
system together with the word read and/or the cycles charged. The
operations are `Read` (`leerDato`), `Write` (`escribirDato`), `Fill`
(`cargarBloque`), `SendBlock` (`enviarBloque`), `Resident` (`existeBloque`),
`SetState` (`cambiarBandera`) and `Flag` (`obtenerBandera`). Every
`System.exit` on a bad address becomes `Err(AddressOutOfRange(..))`. An
array index past the end, which the source does not guard, becomes
`Err(IndexOutOfBounds(..))`. Costs are 1 for a hit, 2 for a peer transfer
and 32 for each memory block access the requesting cache makes itself. The
peer's write-back during a transfer is not charged (see below).

Modules: `Results` (error type), `MainMemory`, `DataCache` (one cache on its
own), `Coherence` (the pair of caches plus memory, and the invariant
proofs), `Trace` (runs of accesses from construction) and `Scenarios`
(concrete runs).

## Behaviour as written

The model follows the code. In five places the code differs from a fully
coherent design:

- A store that misses and is served by the peer leaves the peer's copy
  resident and Clean. Only a store hit invalidates the peer. So "a block
  Modified in one cache is absent from the other" does not hold, and a
  stale read is reachable (`Scenarios.StaleReadAfterPeerStoreMiss`). The
  invariant that does hold is that no block is Modified in both caches
  (`Trace.ReachableNoSharedModified`).
- A store hit invalidates the peer's copy of the block without writing it
  back. After a store miss has left both caches holding the block, one of
  them Modified, a store hit in the other cache drops the Modified copy and
  its update is lost: the 7 stored by core 1 never reaches memory or either
  cache (`Scenarios.LostUpdateOnHitInvalidate`).
- When the peer writes a Modified block back while handing it over, the
  requesting cache is charged only the transfer. The transfer is charged 2
  whether or not the peer wrote the block back. A fill from a Modified peer
  with no eviction costs 2, not 34 (`Scenarios.PeerWriteBackNotCharged`),
  and after a dirty eviction it costs 34, not 66
  (`Coherence.ReadSeesPeerModified`).
- A block read fetches the words at `((dir/16)%16)/4`, not at the block's
  own offset `(dir/16)*4`. A write followed by a read round-trips only for
  block 0 (`MainMemory.BlockZeroRoundTrip`). For every other block the
  write is invisible to the read (`MainMemory.WritesBeyondBlockZeroInvisible`).
- The data range check rejects `dir > 384`, not `dir >= 384`. Address 384
  passes the check. A read there succeeds, because of the offset above. A
  write there indexes word 96 and faults. A store at 384 followed by any
  eviction of that line therefore faults (`Scenarios.LastBlockEvictionFaults`).
  The instruction checks have the same off-by-one.

## Model

| member | source | states |
|---|---|---|
| `MainMemory.NewMemory` | src/Memoria.java:8-14 | construction sets all 96 data words to 1 and all 640 instruction words to 0 |
| `MainMemory.WriteDataBlock` | src/Memoria.java:42-56 | the range check is `DataAddressAdmitted` (0 <= dir <= 384); fails with AddressOutOfRange exactly when dir < 0 or dir > 384; dir = 384 faults on index 96; otherwise stores the block at words (dir/16)*4 .. +3, leaving every other data word and all instructions unchanged |
| `MainMemory.ReadDataBlock` | src/Memoria.java:83-97 | fails exactly when the range check `DataAddressAdmitted` rejects dir, never with an index fault; otherwise returns the 4 words starting at ((dir/16)%16)/4 |
| `MainMemory.ReadWindowIsLow` | src/Memoria.java:91-96 | every admitted block read lies within data words 0..6 |
| `MainMemory.FreshBlocksAreOnes` | src/Memoria.java:8-14 | a block read at any admitted address of a fresh memory returns four ones |
| `MainMemory.BlockZeroRoundTrip` | src/Memoria.java:50-55 | for 0 <= dir < 16, reading a block back after writing it returns the written block |
| `MainMemory.WritesBeyondBlockZeroInvisible` | src/Memoria.java:91-92 | for 16 <= dir < 384, a block read after a block write at the same address returns what it returned before the write |
| `MainMemory.WriteInstruction` | src/Memoria.java:21-35 | rejects dir-384 < 0 or > 640; faults with an index fault at word 640 when the words run past it; otherwise stores the words at dir-384 onward and changes nothing else |
| `MainMemory.ReadInstructionBlock` | src/Memoria.java:63-76 | rejects 16n < 0 or > 640; 16n = 640 faults; otherwise returns instruction words 16n .. 16n+15 |
| `MainMemory.InstructionRoundTrip` | src/Memoria.java:21-76 | a 16-word block written at the address of instruction block n is read back unchanged by block n |
| `DataCache.NewCache` | src/CacheDatosD.java:12-22 | construction leaves all 8 lines tagged -1 and Invalid, so no block is resident |
| `DataCache.ResidentIffPresent` | src/CacheDatosD.java:147-156 | under the line invariant, `Resident` (the model of `existeBloque`, a direct-mapped test of one line's tag and flag) agrees with a search of all lines for a usable line holding the block |
| `DataCache.SetState` | src/CacheDatosD.java:164-169 | changes only the flag of the block's line, and only if that line is tagged with the block; the line invariant is kept for any flag; with Invalid the block stops being resident and no other block's residency changes |
| `DataCache.Flag` | src/CacheDatosD.java:172-174 | fails with an index fault exactly when the line number lies outside 0..7; otherwise, under the line invariant, the flag is not Invalid exactly when some block mapping to the line is resident, and is Modified exactly when some block mapping to the line is resident and Modified |
| `DataCache.FlagAfterSetState` | src/CacheDatosD.java:164-174 | after `cambiarBandera` sets a flag on a line tagged with the block, `obtenerBandera` on that line returns that flag |
| `Coherence.NewSystem` | src/CacheDatosD.java:12-22 | two fresh caches over fresh memory satisfy the invariant and hold nothing |
| `Coherence.SendBlock` | src/CacheDatosD.java:122-139 | returns the line's words; a Modified line is written back at its tag's block and becomes Clean; any other line and all else are unchanged; fails only on a Modified line whose tag lies outside the data store; for a Modified line the new memory is exactly the block write of its words at its tag's address |
| `Coherence.SendKeepsInv` | src/CacheDatosD.java:122-139 | handing a block over keeps the invariant |
| `Coherence.Fill` | src/CacheDatosD.java:81-113 | the line becomes a Clean copy of the block, holding the peer's words when the peer has it and otherwise the memory block read at dir; cost is 32 for a displaced Modified line plus 2 from the peer or 32 from memory; other lines are unchanged; the peer only downgrades its Modified copy; a fault implies one of three named causes |
| `Coherence.FillSucceeds` | src/CacheDatosD.java:86-103 | when none of those three causes holds, the fill succeeds |
| `Coherence.FillMemory` | src/CacheDatosD.java:86-101 | memory after a fill is the displaced line's write-back, followed by the peer's write-back when the peer supplies the block |
| `Coherence.EvictionWritesBack` | src/CacheDatosD.java:86-103 | when a miss displaces a Modified line whose tag lies in the data store, and the block can be fetched, the fill succeeds and the displaced line's four words are in memory at its tag's block afterwards, even when the peer also writes back the requested block |
| `Coherence.WriteBackSurvives` | src/CacheDatosD.java:86-98 | the words a displaced Modified line writes back survive the peer's later write-back of a different block |
| `Coherence.WriteBackStores` | src/CacheDatosD.java:87-92 | `WriteBack` models the write-back of lines 86-92 and 126-132; a successful write-back of a Modified line stores its words at its tag's block |
| `Coherence.PeerWriteBackElsewhere` | src/CacheDatosD.java:126-134 | writing back a line tagged with another block leaves a given block's words unchanged |
| `Coherence.Read` | src/CacheDatosD.java:59-72 | a hit returns the line's word at cost 1 and changes nothing; a miss charges the fill's cost; afterwards the block is resident and the value is its word; reading a block the peer holds returns the peer's word; reading a block neither cache holds returns the word of the memory block read at dir after the eviction; a miss fails exactly when the fill fails and otherwise leaves the system the fill leaves; every cost is in {1, 2, 32, 34, 64} |
| `Coherence.Write` | src/CacheDatosD.java:32-50 | a hit costs 1, invalidates the peer's copy and leaves memory alone; afterwards the line holds the block Modified with the new word and its other words kept; a hit sets the peer's flag through `SetState` to Invalid and changes no other line; a miss fails exactly when the fill fails and otherwise differs from the filled system only in the stored word and the Modified flag of the block's line; a miss served by memory keeps the other words of the memory block read at dir; a miss served by the peer leaves the peer's copy resident and Clean; every cost is in {1, 2, 32, 34, 64} |
| `Coherence.CleanLineKeepsInv` | src/CacheDatosD.java:105-110 | `Install` models lines 105-110; installing a Clean line, with the peer unchanged or downgraded, keeps the line invariant and leaves no block Modified in both caches |
| `Coherence.CacheChangeKeepsInv` | src/CacheDatosD.java:43 | changing one cache only by invalidating one line keeps the invariant |
| `Coherence.StoreKeepsInv` | src/CacheDatosD.java:46-47 | `Store` models lines 46-47; storing a word and marking the line Modified keeps the invariant when the line holds the block and the peer does not hold it Modified |
| `Coherence.FillKeepsInv` | src/CacheDatosD.java:81-113 | a fill keeps the invariant |
| `Coherence.ReadKeepsInv` | src/CacheDatosD.java:59-72 | a load keeps the invariant |
| `Coherence.WriteKeepsInv` | src/CacheDatosD.java:40-47 | a store keeps the invariant: no block is ever Modified in both caches |
| `Coherence.WriteThenRead` | src/CacheDatosD.java:40-71 | a load right after a store on the same core and address returns the stored value at cost 1 |
| `Coherence.ReadSeesPeerModified` | src/CacheDatosD.java:95-110 | a load of a block the peer holds Modified returns the peer's word; the peer writes the block back and becomes Clean; the reader gets a Clean copy; the cost is the transfer plus any eviction of the reader's own line |
| `Coherence.FillFromModifiedPeer` | src/CacheDatosD.java:95-134 | a fill served by a peer holding the block Modified leaves the peer's line Clean, installs a Clean copy of the peer's words, and stores those words in memory at the block |
| `Coherence.FillInRange` | src/CacheDatosD.java:81-113 | while every resident block lies in the data store, a fill below address 384 succeeds and keeps that so |
| `Coherence.CleanLineKeepsInRange` | src/CacheDatosD.java:105-110 | installing a data-store block in one line, with the peer unchanged or downgraded, keeps every resident block inside the data store |
| `Coherence.ReadInRange` | src/CacheDatosD.java:59-72 | the same for a load |
| `Coherence.WriteInRange` | src/CacheDatosD.java:32-50 | the same for a store |
| `Trace.Apply` | src/CacheDatosD.java:32-72 | one access keeps the system well formed and costs one of 1, 2, 32, 34, 64 cycles |
| `Trace.Run` | src/CacheDatosD.java:32-72 | a run of n accesses costs between n and 64n cycles |
| `Trace.ApplyKeepsInv` | src/CacheDatosD.java:32-72 | every access keeps the invariant |
| `Trace.RunKeepsInv` | src/CacheDatosD.java:32-72 | every run of accesses keeps the invariant |
| `Trace.RunCons` | src/CacheDatosD.java:32-72 | a run succeeds when its first access and the rest succeed |
| `Trace.ReachableNoSharedModified` | src/CacheDatosD.java:40-47 | no state reachable from construction has a block Modified in both caches |
| `Trace.ApplyInRange` | src/CacheDatosD.java:32-72 | an access below address 384 does not fault while every resident block lies in the data store |
| `Trace.RunInRangeNeverFails` | src/CacheDatosD.java:32-72 | a run of accesses below address 384 never faults from such a state |
| `Trace.ReachableInRangeNeverFails` | src/Memoria.java:42-97 | from construction, accesses below address 384 never reach a memory fault |
| `Scenarios.PeerWriteBackNotCharged` | src/CacheDatosD.java:96-98 | core 0 stores 42 at address 0 for 32 cycles; core 1 then loads 42 for 2 cycles, and both lines end Clean with memory updated |
| `Scenarios.StaleReadAfterPeerStoreMiss` | src/CacheDatosD.java:40-43 | after core 0 loads address 0 and core 1 stores 7 there, core 0 still holds block 0 while core 1 holds it Modified, and core 0 reads the old value 1 |
| `Scenarios.LastBlockEvictionFaults` | src/Memoria.java:45-55 | a store at address 384 succeeds, and evicting that line later faults at data word 96 |
| `Scenarios.LostUpdateOnHitInvalidate` | src/CacheDatosD.java:40-47 | after core 0 loads address 0, core 1 stores 7 there and core 0 stores 9 at address 4 as a hit, core 1 has lost its copy; its reload returns 1, and memory still holds 1 at word 0 |
| `Scenarios.BlockOneDoesNotRoundTrip` | src/Memoria.java:91-92 | a block written at address 16 lands in words 4..7, but a block read at 16 returns words 0..3 |

## Left out

- `print` in both classes: console output only.
- `getRl`/`setRl`: a register field with no part in the protocol.
- `setOtraCache` and the mutual references it creates: replaced by the `System` value holding both caches.
- The `CacheDatos` interface, the cores and the driver: not part of this model. Cache addresses and block numbers are `nat`, because the driver is assumed to pass addresses >= 0. Java's `/` and `%` differ from Dafny's on negative numbers.
- `System.exit`: replaced by an `Err` result under the same guard conditions. The state at a fault is not modelled. In particular, the instruction words an overlong `escribirInstruccion` stores before it faults are not modelled.
- 32-bit overflow of `numBloque * 16`, `etiqueta * 16` and addresses: Dafny integers are unbounded, and reachable tags stay below 25.
- `cambiarBandera` with a flag character other than `I`, `C` or `M`: the flag is the three-valued `State`.
