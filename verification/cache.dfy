/** One private data cache (`CacheDatosD`) in isolation: 8 direct-mapped
    lines of 4 words, each with a tag and a coherence state. The operations
    that involve the peer cache or main memory are in module Coherence. */
module DataCache {
  import opened Results

  const Lines: int := 8        // ENTRADASCACHE
  const LineWords: int := 4    // TAMENTRADA

  /** The per-line flag: 'I', 'C' and 'M' in the source. */
  datatype State = Invalid | Clean | Modified

  /** A tag of -1 marks a line that has never been filled. */
  datatype Line = Line(tag: int, state: State, words: seq<int>)

  type Cache = seq<Line>

  /** Block number of a byte address. */
  function BlockOf(dir: nat): nat {
    dir / 16
  }

  /** Word of its block that a byte address selects. */
  function WordOf(dir: nat): (w: int)
    ensures 0 <= w < LineWords
  {
    (dir % 16) / 4
  }

  /** The only line a block may occupy. */
  function LineOf(b: nat): (i: int)
    ensures 0 <= i < Lines
  {
    b % Lines
  }

  /** Eight lines of four words each. */
  predicate Shaped(c: Cache) {
    |c| == Lines && forall i :: 0 <= i < |c| ==> |c[i].words| == LineWords
  }

  /** The line invariant: a line in use holds a block that maps to it. */
  predicate Tagged(c: Cache) {
    forall i :: 0 <= i < |c| && c[i].state != Invalid ==> c[i].tag >= 0 && c[i].tag % Lines == i
  }

  /** `existeBloque`: block `b` is in its line and usable. */
  predicate Resident(c: Cache, b: nat)
    requires |c| == Lines
  {
    c[LineOf(b)].tag == b && c[LineOf(b)].state != Invalid
  }

  /** Block `b` is resident and Modified. */
  predicate ModifiedIn(c: Cache, b: nat)
    requires |c| == Lines
  {
    Resident(c, b) && c[LineOf(b)].state == Modified
  }

  /** The constructor: every line untagged and Invalid, words zero. */
  function NewCache(): (c: Cache)
    ensures Shaped(c) && Tagged(c)
    ensures forall i :: 0 <= i < |c| ==> c[i].tag == -1 && c[i].state == Invalid
    ensures forall b: nat :: !Resident(c, b)
  {
    seq(Lines, _ => Line(-1, Invalid, [0, 0, 0, 0]))
  }

  /** Under the line invariant the direct-mapped lookup agrees with a
      search of every line. */
  lemma ResidentIffPresent(c: Cache, b: nat)
    requires |c| == Lines && Tagged(c)
    ensures Resident(c, b) <==> exists i :: 0 <= i < Lines && c[i].tag == b && c[i].state != Invalid
  {

  }

  /** `cambiarBandera`: set the flag of block `b`'s line when that line is
      tagged `b`, whatever its current flag. */
  function SetState(c: Cache, b: nat, flag: State): (c': Cache)
    requires |c| == Lines
    ensures |c'| == Lines
    ensures forall i :: 0 <= i < Lines ==> c'[i].tag == c[i].tag && c'[i].words == c[i].words
    ensures forall i :: 0 <= i < Lines && i != LineOf(b) ==> c'[i] == c[i]
    ensures c[LineOf(b)].tag == b ==> c'[LineOf(b)].state == flag
    ensures c[LineOf(b)].tag != b ==> c' == c
    ensures Shaped(c) ==> Shaped(c')
    ensures Tagged(c) ==> Tagged(c')
    ensures flag == Invalid ==> !Resident(c', b)
    ensures forall x: nat :: x != b ==> (Resident(c', x) <==> Resident(c, x))
  {
    var i := LineOf(b);
    if c[i].tag == b then c[i := c[i].(state := flag)] else c
  }

  /** `obtenerBandera`: the flag of line `i`. An index outside the eight
      lines is the array fault the source leaves unguarded. Under the line
      invariant the flag tells exactly whether the line holds a resident
      block, and whether that block is Modified. */
  function Flag(c: Cache, i: int): (r: Result<State>)
    requires |c| == Lines
    ensures r.Err? <==> !(0 <= i < Lines)
    ensures r.Err? ==> r.fault == IndexOutOfBounds(i)
    ensures r.Ok? && Tagged(c) ==>
      (r.value != Invalid <==> exists b: nat :: LineOf(b) == i && Resident(c, b))
    ensures r.Ok? && Tagged(c) ==>
      (r.value == Modified <==> exists b: nat :: LineOf(b) == i && ModifiedIn(c, b))
  {
    if 0 <= i < Lines then
      var line := c[i];
      assert Tagged(c) && line.state != Invalid ==> LineOf(line.tag) == i && Resident(c, line.tag);
      Ok(line.state)
    else
      Err(IndexOutOfBounds(i))
  }

  /** Reading a flag back after `cambiarBandera` set it on a line tagged
      with the block returns the flag that was set. */
  lemma FlagAfterSetState(c: Cache, b: nat, flag: State)
    requires |c| == Lines
    requires c[LineOf(b)].tag == b
    ensures Flag(SetState(c, b, flag), LineOf(b)) == Ok(flag)
  {
  }
}
