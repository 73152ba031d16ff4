/** The evaluator's activation frame: arguments, locals and the names bound while a body runs. */
module Frames {
  import opened Wrappers
  import opened Bits
  import opened Names
  import opened Fields
  import opened Namespace
  import opened SlotTable
  import opened Values
  import opened Programs
  import RuntimeState

  predicate SlotsFit(slots: seq<Option<Value>>, width: Width) {
    forall i :: 0 <= i < |slots| && slots[i].Some? ==> Values.Fits(slots[i].value, width)
  }

  predicate BindingFits(b: Binding, width: Width) {
    b.BoundValue? ==> Values.Fits(b.value, width)
  }

  predicate NamesFit(named: Table<NameSeg, Binding>, width: Width) {
    forall i :: 0 <= i < |named| && named[i].Some? ==> BindingFits(named[i].value.value, width)
  }

  class Frame {
    const width: Width
    const scope: Path
    const depth: nat

    /** The arguments the caller passed fit the width, so everything in the frame does. */
    ghost const trusted: bool

    var args: seq<Option<Value>>
    var locals: seq<Option<Value>>
    var named: Table<NameSeg, Binding>

    ghost predicate Valid()
      reads this
    {
      && |args| == 7 && |locals| == 8 && |named| == 8
      && depth <= MAX_DEPTH
      && Distinct(named)
      && (trusted ==> SlotsFit(args, width) && SlotsFit(locals, width) && NamesFit(named, width))
    }

    /** What the body can change, given what it shares. */
    function Contents(shared: Shared): Programs.Store
      reads this
    {
      Programs.Store(locals, args, View(named), shared)
    }

    constructor (width: Width, scope: Path, values: seq<Value>, depth: nat, ghost trusted: bool)
      requires |values| <= 7 && depth <= MAX_DEPTH
      requires trusted ==> forall i :: 0 <= i < |values| ==> Values.Fits(values[i], width)
      ensures Valid() && forall shared :: Contents(shared) == Entry(values, shared)
      ensures this.width == width && this.scope == scope && this.depth == depth && this.trusted == trusted
    {
      this.width, this.scope, this.depth, this.trusted := width, scope, depth, trusted;
      locals, named := NothingYet(8), Empties(8);
      args := NothingYet(7);
      new;
      var index := 0;
      while index < |values|
        invariant 0 <= index <= |values| && |args| == 7 && locals == NothingYet(8) && named == Empties(8)
        invariant forall i :: 0 <= i < 7 ==> args[i] == if i < index then Some(values[i]) else None
      {
        args := args[index := Some(values[index])];
        index := index + 1;
      }
      assert args == Given(values) + NothingYet(7 - |values|);
      EmptyView<NameSeg, Binding>(8);
    }

    /** Binds a name: over its old binding, else in the first free slot. */
    method Bind(name: NameSeg, binding: Binding) returns (r: Result<Unit>)
      requires Valid() && (trusted ==> BindingFits(binding, width))
      modifies this`named
      ensures Valid()
      ensures r.Ok? <==> name in View(old(named)) || |View(old(named))| < MAX_NAMES
      ensures r.Ok? ==> View(named) == View(old(named))[name := binding]
      ensures r.Err? ==> r.error == Overflow && named == old(named)
    {
      PutRefinesMap(named, name, binding);
      var empty: Option<nat> := None;
      var index := 0;
      while index < |named|
        invariant 0 <= index <= |named| && named == old(named)
        invariant forall j :: 0 <= j < index ==> !Holds(named[j], name)
        invariant Passed(named, index, empty)
      {
        if Holds(named[index], name) {
          HolderIs(named, name, index);
          named := named[index := Some(Slot(name, binding))];
          return Ok(Unit);
        }
        if named[index].None? && empty.None? { empty := Some(index); }
        index := index + 1;
      }
      if empty.None? { return Err(Overflow); }
      FirstEmptyIs(named, empty.value);
      named := named[empty.value := Some(Slot(name, binding))];
      return Ok(Unit);
    }

    function BindingOf(name: NameSeg): (r: Option<Binding>)
      requires Valid()
      reads this
      ensures r == if name in View(named) then Some(View(named)[name]) else None
      ensures r.Some? && trusted ==> BindingFits(r.value, width)
    {
      ViewLookup(named, name);
      match Holder(named, name) case Some(i) => Some(named[i].value.value) case None => None
    }

    /** Rewrites a name that holds a value; a region or field of that name is left alone. */
    method WriteNamedValue(name: NameSeg, value: Value) returns (written: bool)
      requires Valid() && (trusted ==> Values.Fits(value, width))
      modifies this`named
      ensures Valid()
      ensures written <==> name in View(old(named)) && View(old(named))[name].BoundValue?
      ensures View(named) == if written then View(old(named))[name := BoundValue(value)] else View(old(named))
    {
      PutRefinesMap(named, name, BoundValue(value));
      ViewLookup(named, name);
      var index := 0;
      while index < |named|
        invariant 0 <= index <= |named| && named == old(named)
        invariant forall j :: 0 <= j < index ==> !(Holds(named[j], name) && named[j].value.value.BoundValue?)
      {
        if Holds(named[index], name) && named[index].value.value.BoundValue? {
          HolderIs(named, name, index);
          named := named[index := Some(Slot(name, BoundValue(value)))];
          return true;
        }
        index := index + 1;
      }
      return false;
    }
  }
}
