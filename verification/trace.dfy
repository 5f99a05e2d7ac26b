/** Sequences of accesses issued by the driver, one at a time, and the
    properties of every state they can reach from construction. */
module Trace {
  import opened Results
  import opened MainMemory
  import opened Coherence

  /** One access by a core: a load or a store of a data address. */
  datatype Access = Load(core: Core, dir: nat) | StoreWord(core: Core, dir: nat, value: int)

  /** Run one access; a load's value is dropped. */
  function Apply(s: System, a: Access): (r: Result<Step>)
    requires Formed(s)
    ensures r.Ok? ==> Formed(r.value.sys)
    ensures r.Ok? ==> r.value.cost in {1, 2, 32, 34, 64}
  {
    match a
    case Load(core, dir) =>
      var l :- Read(s, core, dir);
      Ok(Step(l.sys, l.cost))
    case StoreWord(core, dir, v) => Write(s, core, dir, v)
  }

  /** Run the accesses in order, stopping at the first fault, and total their cycles. */
  function Run(s: System, ops: seq<Access>): (r: Result<Step>)
    requires Formed(s)
    ensures r.Ok? ==> Formed(r.value.sys)
    ensures r.Ok? ==> HitCost * |ops| <= r.value.cost <= 2 * MemoryCost * |ops|
    decreases |ops|
  {
    if ops == [] then Ok(Step(s, 0))
    else
      var first :- Apply(s, ops[0]);
      var rest :- Run(first.sys, ops[1..]);
      Ok(Step(rest.sys, first.cost + rest.cost))
  }

  /** Every access keeps the invariant. */
  lemma ApplyKeepsInv(s: System, a: Access)
    requires Inv(s)
    requires Apply(s, a).Ok?
    ensures Inv(Apply(s, a).value.sys)
  {
    match a
    case Load(core, dir) => ReadKeepsInv(s, core, dir);
    case StoreWord(core, dir, v) => WriteKeepsInv(s, core, dir, v);
  }

  /** Every run keeps the invariant. */
  lemma {:induction false} RunKeepsInv(s: System, ops: seq<Access>)
    requires Inv(s)
    requires Run(s, ops).Ok?
    ensures Inv(Run(s, ops).value.sys)
    decreases |ops|
  {
    if ops != [] {
      ApplyKeepsInv(s, ops[0]);
      RunKeepsInv(Apply(s, ops[0]).value.sys, ops[1..]);
    }
  }

  /** No reachable state has a block Modified in both caches. */
  lemma ReachableNoSharedModified(ops: seq<Access>)
    requires Run(NewSystem(), ops).Ok?
    ensures NoSharedModified(Run(NewSystem(), ops).value.sys)
  {
    RunKeepsInv(NewSystem(), ops);
  }

  /** Accesses inside the data store never fault, from any state whose
      resident blocks all lie in the data store. */
  lemma {:induction false} RunInRangeNeverFails(s: System, ops: seq<Access>)
    requires Formed(s) && InRange(s)
    requires forall k :: 0 <= k < |ops| ==> ops[k].dir < DataLimit
    ensures Run(s, ops).Ok?
    ensures InRange(Run(s, ops).value.sys)
    decreases |ops|
  {
    if ops != [] {
      ApplyInRange(s, ops[0]);
      var s' := Apply(s, ops[0]).value.sys;
      RunInRangeNeverFails(s', ops[1..]);
      RunCons(s, ops);
    }
  }

  /** A run whose first access and remaining accesses succeed succeeds,
      ending where the remaining accesses end. */
  lemma RunCons(s: System, ops: seq<Access>)
    requires Formed(s) && ops != []
    requires Apply(s, ops[0]).Ok?
    requires Run(Apply(s, ops[0]).value.sys, ops[1..]).Ok?
    ensures Run(s, ops).Ok?
    ensures Run(s, ops).value.sys == Run(Apply(s, ops[0]).value.sys, ops[1..]).value.sys
  {

  }

  lemma ApplyInRange(s: System, a: Access)
    requires Formed(s) && InRange(s)
    requires a.dir < DataLimit
    ensures Apply(s, a).Ok?
    ensures InRange(Apply(s, a).value.sys)
  {
    match a
    case Load(core, dir) => ReadInRange(s, core, dir);
    case StoreWord(core, dir, v) => WriteInRange(s, core, dir, v);
  }

  /** In particular no run from construction that stays below `DataLimit` faults. */
  lemma {:induction false} ReachableInRangeNeverFails(ops: seq<Access>)
    requires forall k :: 0 <= k < |ops| ==> ops[k].dir < DataLimit
    ensures Run(NewSystem(), ops).Ok?
  {
    var s := NewSystem();
    assert InRange(s);
    RunInRangeNeverFails(s, ops);
  }
}
