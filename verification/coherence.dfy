/** The two data caches and the shared main memory as one value. Each
    operation names the core (0 or 1) whose cache it runs on; the other
    cache is its peer, reached through this value instead of a stored
    reference. */
module Coherence {
  import opened Results
  import opened MainMemory
  import opened DataCache

  const HitCost: int := 1
  const TransferCost: int := 2
  const MemoryCost: int := 32

  type Core = c: int | 0 <= c < 2

  function Peer(c: Core): Core {
    1 - c
  }

  datatype System = System(caches: seq<Cache>, mem: Memory)

  /** Result of a fill or a store: the new system and the cycles charged. */
  datatype Step = Step(sys: System, cost: int)

  /** Result of a load: the new system, the word read and the cycles charged. */
  datatype Loaded = Loaded(sys: System, value: int, cost: int)

  /** Result of `enviarBloque`: the new system and the words handed over. */
  datatype Sent = Sent(sys: System, block: seq<int>)

  /** Two caches of the right shape over a memory of the right size. */
  predicate Formed(s: System) {
    |s.caches| == 2 && Shaped(s.caches[0]) && Shaped(s.caches[1]) && Valid(s.mem)
  }

  /** No block is Modified in both caches. */
  ghost predicate NoSharedModified(s: System)
    requires Formed(s)
  {
    forall b: nat :: !(ModifiedIn(s.caches[0], b) && ModifiedIn(s.caches[1], b))
  }

  /** The system invariant kept by every operation. */
  ghost predicate Inv(s: System) {
    Formed(s) && Tagged(s.caches[0]) && Tagged(s.caches[1]) && NoSharedModified(s)
  }

  /** The stronger exclusivity one might expect: a Modified block is not
      resident in the peer at all. The source does not keep it. */
  ghost predicate ModifiedIsExclusive(s: System)
    requires Formed(s)
  {
    forall k: Core, b: nat :: ModifiedIn(s.caches[k], b) ==> !Resident(s.caches[Peer(k)], b)
  }

  /** Both caches freshly constructed over a freshly constructed memory. */
  function NewSystem(): (s: System)
    ensures Inv(s)
    ensures s.mem == NewMemory()
    ensures forall k: Core, b: nat :: !Resident(s.caches[k], b)
  {
    System([NewCache(), NewCache()], NewMemory())
  }

  /** Write a Modified line's words back to memory at its tag's address;
      any other line leaves memory alone. */
  function WriteBack(mem: Memory, line: Line): (r: Result<Memory>)
    requires Valid(mem) && |line.words| == LineWords
    ensures r.Ok? ==> Valid(r.value)
  {
    if line.state == Modified then WriteDataBlock(mem, line.tag * 16, line.words) else Ok(mem)
  }

  /** `enviarBloque` on cache `core`: hand over the words of block `b`'s
      line, first writing it back and downgrading it to Clean when it is
      Modified. The line's tag is not consulted. */
  function SendBlock(s: System, core: Core, b: nat): (r: Result<Sent>)
    requires Formed(s)
    ensures var line := s.caches[core][LineOf(b)];
      r.Err? <==> line.state == Modified && !(0 <= line.tag < DataBlocks)
    ensures var line := s.caches[core][LineOf(b)];
      r.Ok? ==>
        && Formed(r.value.sys)
        && r.value.block == line.words
        && r.value.sys.caches[core][LineOf(b)] == (if line.state == Modified then line.(state := Clean) else line)
        && (forall j :: 0 <= j < Lines && j != LineOf(b) ==> r.value.sys.caches[core][j] == s.caches[core][j])
        && r.value.sys.caches[Peer(core)] == s.caches[Peer(core)]
    ensures var line := s.caches[core][LineOf(b)];
      r.Ok? && line.state == Modified ==>
        && 0 <= line.tag < DataBlocks
        && BlockHolds(r.value.sys.mem, line.tag, line.words)
        && WriteDataBlock(s.mem, line.tag * 16, line.words) == Ok(r.value.sys.mem)
    ensures var line := s.caches[core][LineOf(b)];
      r.Ok? && line.state != Modified ==> r.value.sys == s
  {
    var i := LineOf(b);
    var line := s.caches[core][i];
    if line.state == Modified then
      var mem :- WriteBack(s.mem, line);
      Ok(Sent(System(s.caches[core := s.caches[core][i := line.(state := Clean)]], mem), line.words))
    else
      Ok(Sent(s, line.words))
  }

  /** Handing a block over keeps the invariant: the sender's line at most
      drops from Modified to Clean, and memory is not part of it. */
  lemma SendKeepsInv(s: System, core: Core, b: nat)
    requires Inv(s)
    requires SendBlock(s, core, b).Ok?
    ensures Inv(SendBlock(s, core, b).value.sys)
  {
    var s' := SendBlock(s, core, b).value.sys;
    var i := LineOf(b);
    forall x: nat
      ensures !(ModifiedIn(s'.caches[0], x) && ModifiedIn(s'.caches[1], x))
    {
      assert s'.caches[Peer(core)] == s.caches[Peer(core)];
      assert s'.caches[core][LineOf(x)].tag == s.caches[core][LineOf(x)].tag;
      assert !(ModifiedIn(s.caches[0], x) && ModifiedIn(s.caches[1], x));
    }
  }

  /** Cycles a miss on block `b` costs cache `core`: a memory access to
      write back a displaced Modified line, then a peer transfer if the
      peer holds `b` and a memory access otherwise. */
  function MissCost(s: System, core: Core, b: nat): int
    requires Formed(s)
  {
    (if s.caches[core][LineOf(b)].state == Modified then MemoryCost else 0)
    + (if Resident(s.caches[Peer(core)], b) then TransferCost else MemoryCost)
  }

  /** Place `words` as a Clean copy of block `b` in its line of cache `core`. */
  function Install(s: System, core: Core, b: nat, words: seq<int>): System
    requires Formed(s) && |words| == LineWords
  {
    s.(caches := s.caches[core := s.caches[core][LineOf(b) := Line(b, Clean, words)]])
  }

  /** `cargarBloque`: make block `b` resident in cache `core`, fetching it
      from the peer when the peer holds it and otherwise from memory at
      `dir`. */
  function Fill(s: System, core: Core, dir: nat, b: nat): (r: Result<Step>)
    requires Formed(s)
    ensures r.Ok? ==> Formed(r.value.sys)
    ensures r.Ok? ==> r.value.cost == MissCost(s, core, b)
    ensures r.Ok? ==>
              && r.value.sys.caches[core][LineOf(b)].tag == b
              && r.value.sys.caches[core][LineOf(b)].state == Clean
    ensures r.Ok? && Resident(s.caches[Peer(core)], b) ==>
              r.value.sys.caches[core][LineOf(b)].words == s.caches[Peer(core)][LineOf(b)].words
    ensures r.Ok? && !Resident(s.caches[Peer(core)], b) ==>
              ReadDataBlock(r.value.sys.mem, dir) == Ok(r.value.sys.caches[core][LineOf(b)].words)
    ensures r.Ok? ==> forall j :: 0 <= j < Lines && j != LineOf(b) ==>
                        r.value.sys.caches[core][j] == s.caches[core][j]
    ensures var p := s.caches[Peer(core)];
      r.Ok? ==> r.value.sys.caches[Peer(core)] ==
                  (if Resident(p, b) && p[LineOf(b)].state == Modified
                   then p[LineOf(b) := p[LineOf(b)].(state := Clean)] else p)
    ensures r.Err? ==>
              var own := s.caches[core][LineOf(b)];
              var peer := s.caches[Peer(core)][LineOf(b)];
              || (own.state == Modified && !(0 <= own.tag < DataBlocks))
              || (Resident(s.caches[Peer(core)], b) && peer.state == Modified && b >= DataBlocks)
              || (!Resident(s.caches[Peer(core)], b) && dir > DataLimit)
  {
    var i := LineOf(b);
    var own := s.caches[core][i];
    var mem :- WriteBack(s.mem, own);
    var evictCost := if own.state == Modified then MemoryCost else 0;
    var s1 := s.(mem := mem);
    if Resident(s.caches[Peer(core)], b) then
      var sent :- SendBlock(s1, Peer(core), b);
      Ok(Step(Install(sent.sys, core, b, sent.block), evictCost + TransferCost))
    else
      var blk :- ReadDataBlock(mem, dir);
      Ok(Step(Install(s1, core, b, blk), evictCost + MemoryCost))
  }

  /** `leerDato`: the word at `dir` as seen by cache `core`. */
  function Read(s: System, core: Core, dir: nat): (r: Result<Loaded>)
    requires Formed(s)
    ensures var c := s.caches[core]; var b := BlockOf(dir);
      Resident(c, b) ==> r == Ok(Loaded(s, c[LineOf(b)].words[WordOf(dir)], HitCost))
    ensures var b := BlockOf(dir);
      r.Ok? ==>
        && Formed(r.value.sys)
        && Resident(r.value.sys.caches[core], b)
        && r.value.value == r.value.sys.caches[core][LineOf(b)].words[WordOf(dir)]
    ensures var b := BlockOf(dir);
      r.Ok? && !Resident(s.caches[core], b) ==> r.value.cost == MissCost(s, core, b)
    ensures var b := BlockOf(dir);
      r.Ok? && !Resident(s.caches[core], b) && Resident(s.caches[Peer(core)], b) ==>
        r.value.value == s.caches[Peer(core)][LineOf(b)].words[WordOf(dir)]
    ensures var b := BlockOf(dir);
      r.Ok? && !Resident(s.caches[core], b) && !Resident(s.caches[Peer(core)], b) ==>
        var blk := ReadDataBlock(r.value.sys.mem, dir);
        blk.Ok? && r.value.value == blk.value[WordOf(dir)]
    ensures var b := BlockOf(dir);
      !Resident(s.caches[core], b) ==>
        && (r.Ok? <==> Fill(s, core, dir, b).Ok?)
        && (r.Ok? ==> r.value.sys == Fill(s, core, dir, b).value.sys)
    ensures r.Ok? ==> r.value.cost in {1, 2, 32, 34, 64}
  {
    var b := BlockOf(dir);
    if Resident(s.caches[core], b) then
      Ok(Loaded(s, s.caches[core][LineOf(b)].words[WordOf(dir)], HitCost))
    else
      var f :- Fill(s, core, dir, b);
      Ok(Loaded(f.sys, f.sys.caches[core][LineOf(b)].words[WordOf(dir)], f.cost))
  }

  /** Store `v` as word `w` of block `b`'s line in cache `core` and mark the line Modified. */
  function Store(s: System, core: Core, b: nat, w: int, v: int): System
    requires Formed(s) && 0 <= w < LineWords
  {
    var line := s.caches[core][LineOf(b)];
    s.(caches := s.caches[core := s.caches[core][LineOf(b) := line.(words := line.words[w := v], state := Modified)]])
  }

  /** `escribirDato`: store `v` at `dir` through cache `core`. On a hit the
      peer's copy is invalidated; on a miss the block is filled and the
      peer's copy is left as the fill left it. */
  function Write(s: System, core: Core, dir: nat, v: int): (r: Result<Step>)
    requires Formed(s)
    ensures var b := BlockOf(dir);
      Resident(s.caches[core], b) ==>
        && r.Ok? && r.value.cost == HitCost && Formed(r.value.sys)
        && !Resident(r.value.sys.caches[Peer(core)], b)
        && r.value.sys.mem == s.mem
    ensures var b := BlockOf(dir); var i := LineOf(b);
      Resident(s.caches[core], b) && r.Ok? ==>
        && r.value.sys.caches[Peer(core)] == SetState(s.caches[Peer(core)], b, Invalid)
        && (forall j :: 0 <= j < Lines && j != i ==> r.value.sys.caches[core][j] == s.caches[core][j])
    ensures var b := BlockOf(dir); var i := LineOf(b);
      r.Ok? ==>
        && Formed(r.value.sys)
        && r.value.sys.caches[core][i].tag == b
        && r.value.sys.caches[core][i].state == Modified
        && r.value.sys.caches[core][i].words[WordOf(dir)] == v
    ensures var b := BlockOf(dir); var i := LineOf(b);
      r.Ok? && Resident(s.caches[core], b) ==>
        forall k :: 0 <= k < LineWords && k != WordOf(dir) ==>
          r.value.sys.caches[core][i].words[k] == s.caches[core][i].words[k]
    ensures var b := BlockOf(dir); var i := LineOf(b);
      r.Ok? && !Resident(s.caches[core], b) && Resident(s.caches[Peer(core)], b) ==>
        && (forall k :: 0 <= k < LineWords && k != WordOf(dir) ==>
              r.value.sys.caches[core][i].words[k] == s.caches[Peer(core)][i].words[k])
        && Resident(r.value.sys.caches[Peer(core)], b)
        && r.value.sys.caches[Peer(core)][i].state == Clean
    ensures var b := BlockOf(dir); var i := LineOf(b);
      r.Ok? && !Resident(s.caches[core], b) && !Resident(s.caches[Peer(core)], b) ==>
        var blk := ReadDataBlock(r.value.sys.mem, dir);
        && blk.Ok?
        && forall k :: 0 <= k < LineWords && k != WordOf(dir) ==> r.value.sys.caches[core][i].words[k] == blk.value[k]
    ensures var b := BlockOf(dir); var i := LineOf(b);
      !Resident(s.caches[core], b) ==>
        && (r.Ok? <==> Fill(s, core, dir, b).Ok?)
        && (r.Ok? ==>
              var f := Fill(s, core, dir, b).value.sys;
              && r.value.sys.mem == f.mem
              && r.value.sys.caches[Peer(core)] == f.caches[Peer(core)]
              && (forall j :: 0 <= j < Lines && j != i ==> r.value.sys.caches[core][j] == f.caches[core][j])
              && (forall k :: 0 <= k < LineWords && k != WordOf(dir) ==>
                    r.value.sys.caches[core][i].words[k] == f.caches[core][i].words[k]))
    ensures var b := BlockOf(dir);
      r.Ok? && !Resident(s.caches[core], b) ==> r.value.cost == MissCost(s, core, b)
    ensures r.Ok? ==> r.value.cost in {1, 2, 32, 34, 64}
  {
    var b := BlockOf(dir);
    if Resident(s.caches[core], b) then
      var s1 := s.(caches := s.caches[Peer(core) := SetState(s.caches[Peer(core)], b, Invalid)]);
      Ok(Step(Store(s1, core, b, WordOf(dir), v), HitCost))
    else
      var f :- Fill(s, core, dir, b);
      Ok(Step(Store(f.sys, core, b, WordOf(dir), v), f.cost))
  }

  /** Every line in use holds one of the 24 blocks of the data store. */
  predicate InRange(s: System)
    requires Formed(s)
  {
    forall k: Core, i :: 0 <= i < Lines && s.caches[k][i].state != Invalid ==>
      0 <= s.caches[k][i].tag < DataBlocks
  }

  /** A fill keeps the line invariant and never leaves a block Modified in
      both caches: the filled line is Clean and the peer only loses its
      Modified flag. */
  lemma FillKeepsInv(s: System, core: Core, dir: nat, b: nat)
    requires Inv(s)
    requires Fill(s, core, dir, b).Ok?
    ensures Inv(Fill(s, core, dir, b).value.sys)
  {
    var s' := Fill(s, core, dir, b).value.sys;
    var p := s.caches[Peer(core)];
    var p' := if Resident(p, b) && p[LineOf(b)].state == Modified then Downgrade(p, LineOf(b)) else p;
    CleanLineKeepsInv(s, s', core, b, p');
  }

  /** `c` with line `i` set to Clean. */
  function Downgrade(c: Cache, i: int): Cache
    requires 0 <= i < |c|
  {
    c[i := c[i].(state := Clean)]
  }

  /** Frame condition of a fill: cache `core` has a Clean copy of `b` in
      its line and is otherwise unchanged, and the peer either is unchanged
      or has had its line for `b` downgraded to Clean. */
  lemma CleanLineKeepsInv(s: System, s': System, core: Core, b: nat, p': Cache)
    requires Inv(s) && Formed(s')
    requires s'.caches[core][LineOf(b)].tag == b && s'.caches[core][LineOf(b)].state == Clean
    requires forall j :: 0 <= j < Lines && j != LineOf(b) ==> s'.caches[core][j] == s.caches[core][j]
    requires s'.caches[Peer(core)] == p'
    requires || p' == s.caches[Peer(core)]
             || (s.caches[Peer(core)][LineOf(b)].state == Modified && p' == Downgrade(s.caches[Peer(core)], LineOf(b)))
    ensures Inv(s')
  {
    var i := LineOf(b);
    forall j | 0 <= j < Lines && s'.caches[core][j].state != Invalid
      ensures s'.caches[core][j].tag >= 0 && s'.caches[core][j].tag % Lines == j
    {
      if j != i {
        assert s'.caches[core][j] == s.caches[core][j];
      }
    }
    forall j | 0 <= j < Lines && p'[j].state != Invalid
      ensures p'[j].tag >= 0 && p'[j].tag % Lines == j
    {
      assert p'[j].tag == s.caches[Peer(core)][j].tag;
    }
    assert Tagged(s'.caches[core]) && Tagged(s'.caches[Peer(core)]);
    assert Tagged(s'.caches[0]) && Tagged(s'.caches[1]) by {
      if core == 0 {} else {}
    }
    forall x: nat
      ensures !(ModifiedIn(s'.caches[0], x) && ModifiedIn(s'.caches[1], x))
    {
      if LineOf(x) != i {
        assert s'.caches[core][LineOf(x)] == s.caches[core][LineOf(x)];
        assert s'.caches[Peer(core)][LineOf(x)] == s.caches[Peer(core)][LineOf(x)];
        assert !(ModifiedIn(s.caches[0], x) && ModifiedIn(s.caches[1], x));
      } else {
        assert !ModifiedIn(s'.caches[core], x);
      }
    }
  }

  /** A load keeps the invariant. */
  lemma ReadKeepsInv(s: System, core: Core, dir: nat)
    requires Inv(s)
    requires Read(s, core, dir).Ok?
    ensures Inv(Read(s, core, dir).value.sys)
  {
    if !Resident(s.caches[core], BlockOf(dir)) {
      FillKeepsInv(s, core, dir, BlockOf(dir));
    }
  }

  /** A store keeps the invariant: on a hit the peer's copy is invalidated,
      and on a miss the fill has already left the peer's copy (if any) Clean. */
  lemma WriteKeepsInv(s: System, core: Core, dir: nat, v: int)
    requires Inv(s)
    requires Write(s, core, dir, v).Ok?
    ensures Inv(Write(s, core, dir, v).value.sys)
  {
    var b := BlockOf(dir);
    var mid: System;
    if Resident(s.caches[core], b) {
      var p := s.caches[Peer(core)];
      mid := s.(caches := s.caches[Peer(core) := SetState(p, b, Invalid)]);
      assert mid.caches[core] == s.caches[core];
      CacheChangeKeepsInv(s, mid, Peer(core), LineOf(b));
    } else {
      FillKeepsInv(s, core, dir, b);
      mid := Fill(s, core, dir, b).value.sys;
    }
    assert Write(s, core, dir, v).value.sys == Store(mid, core, b, WordOf(dir), v);
    StoreKeepsInv(mid, core, b, WordOf(dir), v);
  }

  /** Invalidating at most one line of one cache keeps the invariant. */
  lemma CacheChangeKeepsInv(s: System, s': System, k: Core, i: int)
    requires Inv(s) && Formed(s') && 0 <= i < Lines
    requires s'.mem == s.mem && s'.caches[Peer(k)] == s.caches[Peer(k)]
    requires forall j :: 0 <= j < Lines && j != i ==> s'.caches[k][j] == s.caches[k][j]
    requires s'.caches[k][i] == s.caches[k][i] || s'.caches[k][i] == s.caches[k][i].(state := Invalid)
    ensures Inv(s')
  {
    forall x: nat
      ensures !(ModifiedIn(s'.caches[0], x) && ModifiedIn(s'.caches[1], x))
    {
      if LineOf(x) != i {
        assert s'.caches[k][LineOf(x)] == s.caches[k][LineOf(x)];
        assert !(ModifiedIn(s.caches[0], x) && ModifiedIn(s.caches[1], x));
      }
    }
  }

  /** Storing into the line of block `b` keeps the invariant when that line
      holds `b` and the peer does not hold `b` Modified. */
  lemma StoreKeepsInv(s: System, core: Core, b: nat, w: int, v: int)
    requires Inv(s) && 0 <= w < LineWords
    requires s.caches[core][LineOf(b)].tag == b
    requires !ModifiedIn(s.caches[Peer(core)], b)
    ensures Inv(Store(s, core, b, w, v))
  {
    var s' := Store(s, core, b, w, v);
    var i := LineOf(b);
    forall x: nat
      ensures !(ModifiedIn(s'.caches[0], x) && ModifiedIn(s'.caches[1], x))
    {
      if LineOf(x) != i {
        assert s'.caches[core][LineOf(x)] == s.caches[core][LineOf(x)];
        assert s'.caches[Peer(core)] == s.caches[Peer(core)];
        assert !(ModifiedIn(s.caches[0], x) && ModifiedIn(s.caches[1], x));
      } else if x != b {
        assert !Resident(s'.caches[core], x);
      } else {
        assert !ModifiedIn(s'.caches[Peer(core)], x);
      }
    }
  }

  /** Eviction write-back: when a miss displaces a Modified line, that
      line's four words are in memory at its tag's block once the fill
      completes. */
  lemma EvictionWritesBack(s: System, core: Core, dir: nat, b: nat)
    requires Formed(s)
    requires !Resident(s.caches[core], b)
    requires var gone := s.caches[core][LineOf(b)];
      gone.state == Modified && 0 <= gone.tag < DataBlocks
    requires Resident(s.caches[Peer(core)], b) && s.caches[Peer(core)][LineOf(b)].state == Modified ==> b < DataBlocks
    requires !Resident(s.caches[Peer(core)], b) ==> dir <= DataLimit
    ensures Fill(s, core, dir, b).Ok?
    ensures var gone := s.caches[core][LineOf(b)];
      BlockHolds(Fill(s, core, dir, b).value.sys.mem, gone.tag, gone.words)
  {
    var i := LineOf(b);
    var gone := s.caches[core][i];
    FillSucceeds(s, core, dir, b);
    var last := Fill(s, core, dir, b).value.sys.mem;
    var second := Resident(s.caches[Peer(core)], b);
    var mem := WriteBack(s.mem, gone).value;
    assert WriteBack(s.mem, gone) == Ok(mem) && (second ==> WriteBack(mem, s.caches[Peer(core)][i]) == Ok(last))
        && (!second ==> last == mem) by {
      FillMemory(s, core, dir, b);
    }
    // a peer that supplies the block writes back block b, which is not the displaced block
    WriteBackSurvives(s.mem, gone, mem, s.caches[Peer(core)][i], last, second);
  }

  /** A successful write-back of a Modified line stores its words at its tag's block. */
  lemma WriteBackStores(mem: Memory, line: Line, mem': Memory)
    requires Valid(mem) && |line.words| == LineWords
    requires line.state == Modified
    requires WriteBack(mem, line) == Ok(mem')
    ensures BlockHolds(mem', line.tag, line.words)
  {

  }

  /** The words a write-back stores survive a second write-back of a line
      tagged with another block. */
  lemma WriteBackSurvives(m0: Memory, gone: Line, m1: Memory, p: Line, m2: Memory, second: bool)
    requires Valid(m0) && |gone.words| == LineWords && |p.words| == LineWords
    requires gone.state == Modified && WriteBack(m0, gone) == Ok(m1)
    requires second ==> p.tag != gone.tag && WriteBack(m1, p) == Ok(m2)
    requires !second ==> m2 == m1
    ensures BlockHolds(m2, gone.tag, gone.words)
  {
    WriteBackStores(m0, gone, m1);
    if second {
      PeerWriteBackElsewhere(m1, gone.tag, p, m2);
    }
  }

  /** Memory after a fill: the displaced line's write-back, followed by
      the peer's write-back when the peer supplies the block. */
  lemma FillMemory(s: System, core: Core, dir: nat, b: nat)
    requires Formed(s)
    requires Fill(s, core, dir, b).Ok?
    ensures var i := LineOf(b);
      var wb := WriteBack(s.mem, s.caches[core][i]);
      && wb.Ok?
      && (!Resident(s.caches[Peer(core)], b) ==> Fill(s, core, dir, b).value.sys.mem == wb.value)
      && (Resident(s.caches[Peer(core)], b) ==>
            WriteBack(wb.value, s.caches[Peer(core)][i]) == Ok(Fill(s, core, dir, b).value.sys.mem))
  {

  }

  /** Writing back a line tagged with another block leaves block `t`'s words alone. */
  lemma PeerWriteBackElsewhere(mem: Memory, t: int, p: Line, mem': Memory)
    requires Valid(mem) && |p.words| == LineWords
    requires 0 <= t < DataBlocks && p.tag != t
    requires WriteBack(mem, p) == Ok(mem')
    ensures forall j :: t * BlockWords <= j < t * BlockWords + LineWords ==> mem'.data[j] == mem.data[j]
  {

  }

  /** A store followed by a load of the same address on the same core reads
      back the stored value as a hit. */
  lemma WriteThenRead(s: System, core: Core, dir: nat, v: int)
    requires Formed(s)
    requires Write(s, core, dir, v).Ok?
    ensures Read(Write(s, core, dir, v).value.sys, core, dir) == Ok(Loaded(Write(s, core, dir, v).value.sys, v, HitCost))
  {

  }

  /** A load of a block the peer holds Modified sees the peer's words; the
      peer writes the block back and becomes Clean, and the reader holds a
      Clean copy. The write-back is not charged to the reader. */
  lemma ReadSeesPeerModified(s: System, core: Core, dir: nat)
    requires Formed(s)
    requires ModifiedIn(s.caches[Peer(core)], BlockOf(dir))
    requires !Resident(s.caches[core], BlockOf(dir))
    requires Read(s, core, dir).Ok?
    ensures var b := BlockOf(dir); var i := LineOf(b); var p := s.caches[Peer(core)][i];
      var r := Read(s, core, dir).value;
      && r.value == p.words[WordOf(dir)]
      && r.sys.caches[Peer(core)][i] == p.(state := Clean)
      && r.sys.caches[core][i] == Line(b, Clean, p.words)
      && BlockHolds(r.sys.mem, b, p.words)
      && r.cost == (if s.caches[core][i].state == Modified then MemoryCost else 0) + TransferCost
  {
    FillFromModifiedPeer(s, core, dir, BlockOf(dir));
  }

  /** A fill served by a peer that holds the block Modified: the peer
      writes the block back and becomes Clean, and the filled line is a
      Clean copy of the peer's words. */
  lemma FillFromModifiedPeer(s: System, core: Core, dir: nat, b: nat)
    requires Formed(s)
    requires ModifiedIn(s.caches[Peer(core)], b)
    requires Fill(s, core, dir, b).Ok?
    ensures var i := LineOf(b); var p := s.caches[Peer(core)][i];
      var f := Fill(s, core, dir, b).value.sys;
      && f.caches[Peer(core)][i] == p.(state := Clean)
      && f.caches[core][i] == Line(b, Clean, p.words)
      && BlockHolds(f.mem, b, p.words)
  {
    var i := LineOf(b);
    var p := s.caches[Peer(core)][i];
    var last := Fill(s, core, dir, b).value.sys.mem;
    var wb := WriteBack(s.mem, s.caches[core][i]).value;
    assert WriteBack(wb, p) == Ok(last) by {
      FillMemory(s, core, dir, b);
    }
    WriteBackStores(wb, p, last);
  }

  /** While every resident block lies in the data store, a load at an
      address below `DataLimit` cannot fail and keeps that so. */
  lemma ReadInRange(s: System, core: Core, dir: nat)
    requires Formed(s) && InRange(s)
    requires dir < DataLimit
    ensures Read(s, core, dir).Ok?
    ensures InRange(Read(s, core, dir).value.sys)
  {
    var b := BlockOf(dir);
    if !Resident(s.caches[core], b) {
      FillInRange(s, core, dir);
    }
  }

  /** As `ReadInRange`, for a store. */
  lemma WriteInRange(s: System, core: Core, dir: nat, v: int)
    requires Formed(s) && InRange(s)
    requires dir < DataLimit
    ensures Write(s, core, dir, v).Ok?
    ensures InRange(Write(s, core, dir, v).value.sys)
  {
    var b := BlockOf(dir);
    if !Resident(s.caches[core], b) {
      FillInRange(s, core, dir);
    }
  }

  /** The converse of `Fill`'s fault clause: when none of the three causes
      holds, the fill succeeds. */
  lemma FillSucceeds(s: System, core: Core, dir: nat, b: nat)
    requires Formed(s)
    requires var own := s.caches[core][LineOf(b)];
      own.state == Modified ==> 0 <= own.tag < DataBlocks
    requires Resident(s.caches[Peer(core)], b) && s.caches[Peer(core)][LineOf(b)].state == Modified ==> b < DataBlocks
    requires !Resident(s.caches[Peer(core)], b) ==> dir <= DataLimit
    ensures Fill(s, core, dir, b).Ok?
  {

  }

  lemma FillInRange(s: System, core: Core, dir: nat)
    requires Formed(s) && InRange(s)
    requires dir < DataLimit
    ensures Fill(s, core, dir, BlockOf(dir)).Ok?
    ensures InRange(Fill(s, core, dir, BlockOf(dir)).value.sys)
  {
    var b := BlockOf(dir);
    var i := LineOf(b);
    assert s.caches[core][i].state != Invalid ==> 0 <= s.caches[core][i].tag < DataBlocks;
    FillSucceeds(s, core, dir, b);
    var p := s.caches[Peer(core)];
    var p' := if Resident(p, b) && p[i].state == Modified then Downgrade(p, i) else p;
    CleanLineKeepsInRange(s, Fill(s, core, dir, b).value.sys, core, b, p');
  }

  /** The frame condition of a fill, as in `CleanLineKeepsInv`, keeps every
      resident block inside the data store when the filled block is. */
  lemma CleanLineKeepsInRange(s: System, s': System, core: Core, b: nat, p': Cache)
    requires Formed(s) && InRange(s) && Formed(s') && b < DataBlocks
    requires s'.caches[core][LineOf(b)].tag == b
    requires forall j :: 0 <= j < Lines && j != LineOf(b) ==> s'.caches[core][j] == s.caches[core][j]
    requires s'.caches[Peer(core)] == p'
    requires || p' == s.caches[Peer(core)]
             || (s.caches[Peer(core)][LineOf(b)].state == Modified && p' == Downgrade(s.caches[Peer(core)], LineOf(b)))
    ensures InRange(s')
  {
    forall k: Core, j | 0 <= j < Lines && s'.caches[k][j].state != Invalid
      ensures 0 <= s'.caches[k][j].tag < DataBlocks
    {
      if k != core || j != LineOf(b) {
        assert s'.caches[k][j].tag == s.caches[k][j].tag;
        assert s.caches[k][j].state != Invalid;
      }
    }
  }
}
