/** The FDXE registry: modules and their exported drivers, in storage the caller owns. */
module Fdxe {
  import opened Wrappers

  datatype Failure = BadMagic | AbiMismatch | LayoutMismatch | DuplicateModule | CapacityExhausted

  datatype Outcome<+T> = Success(value: T) | Failure(failure: Failure)
  {
    predicate IsFailure() { Failure? }

    function PropagateFailure<U>(): Outcome<U>
      requires Failure?
    {
      Failure(failure)
    }

    function Extract(): T
      requires Success?
    {
      value
    }
  }

  datatype Driver = Driver(key: nat)

  /** A module header: where it lives, what its own validation says, and what it exports. */
  datatype Module = Module(address: nat, defect: Option<Failure>, exports: seq<Driver>)

  /** A static record of a module: well formed, or not. */
  datatype StaticRecord = StaticRecord(wellFormed: bool, content: Module)

  function Exports(modules: seq<Module>): seq<Driver> {
    if modules == [] then [] else Exports(modules[..|modules| - 1]) + modules[|modules| - 1].exports
  }

  predicate DistinctModules(modules: seq<Module>) {
    forall i, j :: 0 <= i < j < |modules| ==> modules[i].address != modules[j].address
  }

  function ResolveStatic(r: StaticRecord): Outcome<Module> {
    if r.wellFormed then Success(r.content) else Failure(LayoutMismatch)
  }

  predicate Sound(r: StaticRecord) { r.wellFormed && r.content.defect.None? }

  function Contents(records: seq<StaticRecord>): (s: seq<Module>)
    ensures |s| == |records| && forall i :: 0 <= i < |s| ==> s[i] == records[i].content
  {
    if records == [] then [] else Contents(records[..|records| - 1]) + [records[|records| - 1].content]
  }

  datatype Inventory = Inventory(modules: nat, drivers: nat)

  /** Counts what a registry would have to hold. */
  method InventoryStaticModules(records: seq<StaticRecord>) returns (r: Outcome<Inventory>)
    ensures r.Success? <==> forall i :: 0 <= i < |records| ==> Sound(records[i])
    ensures r.Success? ==> r.value == Inventory(|records|, |Exports(Contents(records))|)
  {
    hide Exports;
    NoExports();
    var count := Inventory(0, 0);
    for i := 0 to |records|
      invariant forall k :: 0 <= k < i ==> Sound(records[k])
      invariant count == Inventory(i, |Exports(Contents(records[..i]))|)
    {
      assert records[..i + 1][..i] == records[..i];
      OneMoreExports(records, i);
      var m :- ResolveStatic(records[i]);
      if m.defect.Some? { return Failure(m.defect.value); }
      count := Inventory(count.modules + 1, count.drivers + |m.exports|);
    }
    assert records[..|records|] == records;
    return Success(count);
  }

  class Registry {
    const modules: array<Module>
    const drivers: array<Driver>
    var moduleCount: nat
    var driverCount: nat

    /** The drivers are, in order, what the registered modules export, and no module is there twice. */
    ghost predicate Valid()
      reads this, modules, drivers
    {
      && moduleCount <= modules.Length && driverCount <= drivers.Length
      && DistinctModules(modules[..moduleCount])
      && drivers[..driverCount] == Exports(modules[..moduleCount])
    }

    constructor (modules: array<Module>, drivers: array<Driver>)
      ensures this.modules == modules && this.drivers == drivers
      ensures Valid() && moduleCount == 0 && driverCount == 0
    {
      this.modules, this.drivers, moduleCount, driverCount := modules, drivers, 0, 0;
    }

    /** Registers a module and everything it exports, or changes nothing. */
    method RegisterModule(m: Module) returns (r: Outcome<Unit>)
      requires Valid()
      modifies this, modules, drivers
      ensures Valid()
      ensures r.Success? <==>
                && m.defect.None?
                && (forall k :: 0 <= k < old(moduleCount) ==> old(modules[k]).address != m.address)
                && old(moduleCount) < modules.Length && old(driverCount) + |m.exports| <= drivers.Length
      ensures r.Success? ==> modules[..moduleCount] == old(modules[..moduleCount]) + [m]
                             && drivers[..driverCount] == old(drivers[..driverCount]) + m.exports
      ensures r.Failure? ==> moduleCount == old(moduleCount) && driverCount == old(driverCount)
                             && modules[..] == old(modules[..]) && drivers[..] == old(drivers[..])
    {
      if m.defect.Some? { return Failure(m.defect.value); }
      if Registered(m) { return Failure(DuplicateModule); }
      if moduleCount == modules.Length || driverCount + |m.exports| > drivers.Length {
        return Failure(CapacityExhausted);
      }
      modules[moduleCount] := m;
      moduleCount := moduleCount + 1;
      var i := 0;
      while i < |m.exports|
        invariant 0 <= i <= |m.exports| && driverCount == old(driverCount) + i
        invariant moduleCount == old(moduleCount) + 1 && modules[..moduleCount] == old(modules[..moduleCount]) + [m]
        invariant drivers[..driverCount] == old(drivers[..driverCount]) + m.exports[..i]
      {
        drivers[driverCount] := m.exports[i];
        driverCount := driverCount + 1;
        i := i + 1;
      }
      assert m.exports[..|m.exports|] == m.exports;
      assert modules[..moduleCount][..moduleCount - 1] == old(modules[..moduleCount]);
      return Success(Unit);
    }

    predicate Registered(m: Module)
      requires moduleCount <= modules.Length
      reads this, modules
    {
      exists k :: 0 <= k < moduleCount && modules[k].address == m.address
    }

    /** Registers records until one fails. On a fresh registry whose storage covers the inventory, a list of
        distinct sound modules registers completely. */
    method RegisterStaticModules(records: seq<StaticRecord>) returns (r: Outcome<Unit>)
      requires Valid()
      modifies this, modules, drivers
      ensures Valid() && old(modules[..moduleCount]) <= modules[..moduleCount]
      ensures r.Success? ==> modules[..moduleCount] == old(modules[..moduleCount]) + Contents(records)
      ensures old(moduleCount) == 0 && old(driverCount) == 0
              && (forall i :: 0 <= i < |records| ==> Sound(records[i]))
              && DistinctModules(Contents(records))
              && |records| <= modules.Length && |Exports(Contents(records))| <= drivers.Length
              ==> r.Success?
    {
      hide Exports, Contents;
      NoExports();
      ghost var before := modules[..moduleCount];
      assert before + Contents(records[..0]) == before;
      for i := 0 to |records|
        invariant Valid() && modules[..moduleCount] == before + Contents(records[..i])
      {
        OneMoreExports(records, i);
        RoomForNext(records, i);
        ghost var done := Contents(records[..i]);
        assert [] + done == done;
        assert forall k :: 0 <= k < moduleCount ==> modules[k] == modules[..moduleCount][k];
        assert |drivers[..driverCount]| == driverCount;
        var m :- ResolveStatic(records[i]);
        var _ :- RegisterModule(m);
      }
      assert records[..|records|] == records;
      return Success(Unit);
    }
  }

  lemma NoExports()
    ensures Exports([]) == []
  {
  }

  lemma OneMoreExports(records: seq<StaticRecord>, i: nat)
    requires i < |records|
    ensures Contents(records[..i + 1]) == Contents(records[..i]) + [records[i].content]
    ensures Exports(Contents(records[..i + 1])) == Exports(Contents(records[..i])) + records[i].content.exports
  {
    assert records[..i + 1][..i] == records[..i];
    assert Contents(records[..i + 1])[..i] == Contents(records[..i]);
  }

  /** What the first records export is no more than what all of them do. */
  lemma RoomForNext(records: seq<StaticRecord>, i: nat)
    requires i < |records|
    ensures |Exports(Contents(records[..i]))| + |records[i].content.exports| <= |Exports(Contents(records))|
    ensures DistinctModules(Contents(records)) ==>
              forall k :: 0 <= k < i ==> Contents(records[..i])[k].address != records[i].content.address
  {
    var all := Contents(records);
    assert Contents(records[..i]) == all[..i];
    assert all[..i + 1][..i] == all[..i];
    ExportsGrow(all, i + 1);
  }

  lemma {:induction false} ExportsGrow(modules: seq<Module>, k: nat)
    requires k <= |modules|
    ensures |Exports(modules[..k])| <= |Exports(modules)|
    decreases |modules|
  {
    if k == |modules| {
      assert modules[..k] == modules;
    } else {
      var init := modules[..|modules| - 1];
      ExportsGrow(init, k);
      assert init[..k] == modules[..k];
    }
  }
}
