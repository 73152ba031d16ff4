/** The mutable overlay of the AML engine: fixed tables of slots for integer names, packages,
    buffers and mutexes. A slot once taken is never given back. */
module RuntimeState {
  import opened Wrappers
  import opened Bits
  import opened SlotTable

  const MAX_PACKAGE_ELEMENTS: nat := 16
  const MAX_BUFFER_BYTES: nat := 64

  type NodeTable<V> = Table<nat, V>

  datatype Aggregate = Vacant | Whole(value: u64) | BufferRef(handle: nat)

  datatype PackageSlot = PackageSlot(handle: nat, len: byte, elements: seq<Aggregate>)

  datatype BufferSlot = BufferSlot(handle: nat, len: byte, bytes: seq<byte>)

  datatype Overlay = Overlay(integers: NodeTable<u64>, packages: seq<Option<PackageSlot>>,
                             buffers: seq<Option<BufferSlot>>, mutexes: NodeTable<bool>)

  // ---- Mutexes ----

  datatype Attempt = Attempt(table: NodeTable<bool>, granted: bool)

  function Acquired(t: NodeTable<bool>, node: nat): Result<Attempt> {
    if Held(t, node) then Ok(Attempt(t, false))
    else match Put(t, node, true)
      case Ok(t') => Ok(Attempt(t', true))
      case Err(e) => Err(e)
  }

  function Released(t: NodeTable<bool>, node: nat): Result<NodeTable<bool>> {
    if Held(t, node) then Put(t, node, false) else Err(InvalidState)
  }

  predicate Held(t: NodeTable<bool>, node: nat) {
    Holder(t, node).Some? && t[Holder(t, node).value].value.value
  }

  // ---- Packages and buffers ----

  function Zeros(n: nat): (r: seq<byte>)
    ensures |r| == n && forall i :: 0 <= i < n ==> r[i] == 0
  {
    if n == 0 then [] else Zeros(n - 1) + [0]
  }

  function Vacancies(n: nat): (r: seq<Aggregate>)
    ensures |r| == n && forall i :: 0 <= i < n ==> r[i] == Vacant
  {
    if n == 0 then [] else Vacancies(n - 1) + [Vacant]
  }

  /** The first empty slot, unless its index does not fit a 16-bit handle. */
  function NextHandle<S>(t: seq<Option<S>>): (r: Result<nat>)
    ensures r.Ok? <==> FirstEmpty(t).Some? && FirstEmpty(t).value <= U16_MAX
    ensures r.Ok? ==> r.value < |t| && t[r.value].None?
  {
    match FirstEmpty(t)
    case Some(i) => if i <= U16_MAX then Ok(i) else Err(Overflow)
    case None => Err(Overflow)
  }

  predicate PackageOk(slot: PackageSlot, i: nat) {
    slot.handle == i && slot.len <= MAX_PACKAGE_ELEMENTS && |slot.elements| == MAX_PACKAGE_ELEMENTS
  }

  /** A buffer's bytes past its length are zero. */
  predicate BufferOk(slot: BufferSlot, i: nat) {
    && slot.handle == i && slot.len <= MAX_BUFFER_BYTES && |slot.bytes| == MAX_BUFFER_BYTES
    && forall k :: slot.len <= k < MAX_BUFFER_BYTES ==> slot.bytes[k] == 0
  }

  function PackageAt(o: Overlay, handle: nat): Option<PackageSlot> {
    if handle < |o.packages| then o.packages[handle] else None
  }

  function BufferAt(o: Overlay, handle: nat): Option<BufferSlot> {
    if handle < |o.buffers| then o.buffers[handle] else None
  }

  /** What the copy leaves: as many of the given bytes as the buffer is long, then zeros. */
  function Fitted(bytes: seq<byte>, len: nat): (r: seq<byte>)
    requires len <= MAX_BUFFER_BYTES
    ensures |r| == MAX_BUFFER_BYTES
    ensures forall k :: 0 <= k < MAX_BUFFER_BYTES ==> r[k] == if k < len && k < |bytes| then bytes[k] else 0
  {
    var n := if len < |bytes| then len else |bytes|;
    bytes[..n] + Zeros(MAX_BUFFER_BYTES - n)
  }

  ghost predicate Sound(o: Overlay) {
    && Distinct(o.integers) && Distinct(o.mutexes)
    && (forall i :: 0 <= i < |o.packages| && o.packages[i].Some? ==> PackageOk(o.packages[i].value, i))
    && (forall i :: 0 <= i < |o.buffers| && o.buffers[i].Some? ==> BufferOk(o.buffers[i].value, i))
  }

  // ---- Calls and runs ----

  datatype Call =
    | WriteInteger(node: nat, value: u64)
    | CreatePackage(len: byte)
    | WritePackage(handle: nat, index: byte, element: Aggregate)
    | CreateBuffer(len: byte)
    | WriteBuffer(handle: nat, index: byte, b: byte)
    | CopyBytes(handle: nat, bytes: seq<byte>)
    | Acquire(node: nat)
    | Release(node: nat)

  datatype Reply = Done | Made(handle: nat) | Refused | Failed(error: Error)

  datatype Effect = Effect(overlay: Overlay, reply: Reply)

  function Perform(o: Overlay, c: Call): Effect
    requires Sound(o)
  {
    match c
    case WriteInteger(node, value) =>
      (match Put(o.integers, node, value)
       case Ok(t) => Effect(o.(integers := t), Done)
       case Err(e) => Effect(o, Failed(e)))
    case CreatePackage(len) =>
      if len > MAX_PACKAGE_ELEMENTS then Effect(o, Failed(Overflow))
      else (match NextHandle(o.packages)
            case Ok(h) => Effect(o.(packages := o.packages[h := Some(PackageSlot(h, len, Vacancies(MAX_PACKAGE_ELEMENTS)))]),
                                 Made(h))
            case Err(e) => Effect(o, Failed(e)))
    case WritePackage(h, index, element) =>
      if PackageAt(o, h).None? || index >= PackageAt(o, h).value.len then Effect(o, Failed(InvalidState))
      else
        var slot := PackageAt(o, h).value;
        Effect(o.(packages := o.packages[h := Some(slot.(elements := slot.elements[index := element]))]), Done)
    case CreateBuffer(len) =>
      if len > MAX_BUFFER_BYTES then Effect(o, Failed(Overflow))
      else (match NextHandle(o.buffers)
            case Ok(h) => Effect(o.(buffers := o.buffers[h := Some(BufferSlot(h, len, Zeros(MAX_BUFFER_BYTES)))]), Made(h))
            case Err(e) => Effect(o, Failed(e)))
    case WriteBuffer(h, index, b) =>
      if BufferAt(o, h).None? || index >= BufferAt(o, h).value.len then Effect(o, Failed(InvalidState))
      else
        var slot := BufferAt(o, h).value;
        Effect(o.(buffers := o.buffers[h := Some(slot.(bytes := slot.bytes[index := b]))]), Done)
    case CopyBytes(h, bytes) =>
      if BufferAt(o, h).None? then Effect(o, Failed(InvalidState))
      else
        var slot := BufferAt(o, h).value;
        Effect(o.(buffers := o.buffers[h := Some(slot.(bytes := Fitted(bytes, slot.len)))]), Done)
    case Acquire(node) =>
      (match Acquired(o.mutexes, node)
       case Ok(a) => Effect(o.(mutexes := a.table), if a.granted then Done else Refused)
       case Err(e) => Effect(o, Failed(e)))
    case Release(node) =>
      (match Released(o.mutexes, node)
       case Ok(t) => Effect(o.(mutexes := t), Done)
       case Err(e) => Effect(o, Failed(e)))
  }

  /** Slots never disappear, and a package or buffer keeps its length. */
  predicate Grows(before: Overlay, after: Overlay) {
    && |before.integers| == |after.integers| && |before.mutexes| == |after.mutexes|
    && |before.packages| == |after.packages| && |before.buffers| == |after.buffers|
    && (forall i :: 0 <= i < |before.packages| && before.packages[i].Some? ==>
          after.packages[i].Some? && after.packages[i].value.len == before.packages[i].value.len)
    && (forall i :: 0 <= i < |before.buffers| && before.buffers[i].Some? ==>
          after.buffers[i].Some? && after.buffers[i].value.len == before.buffers[i].value.len)
  }

  lemma SlotsKept(o: Overlay, c: Call)
    requires Sound(o) && (c.WriteInteger? || c.Acquire? || c.Release?)
    ensures Sound(Perform(o, c).overlay) && Grows(o, Perform(o, c).overlay)
  {
    hide View;
    match c {
      case WriteInteger(node, value) => PutRefinesMap(o.integers, node, value);
      case Acquire(node) => PutRefinesMap(o.mutexes, node, true);
      case Release(node) => PutRefinesMap(o.mutexes, node, false);
    }
  }

  lemma PackagesKept(o: Overlay, c: Call)
    requires Sound(o) && (c.CreatePackage? || c.WritePackage?)
    ensures Sound(Perform(o, c).overlay) && Grows(o, Perform(o, c).overlay)
  {
  }

  lemma BuffersKept(o: Overlay, c: Call)
    requires Sound(o) && (c.CreateBuffer? || c.WriteBuffer? || c.CopyBytes?)
    ensures Sound(Perform(o, c).overlay) && Grows(o, Perform(o, c).overlay)
  {
  }

  lemma PerformKeeps(o: Overlay, c: Call)
    requires Sound(o)
    ensures Sound(Perform(o, c).overlay) && Grows(o, Perform(o, c).overlay)
  {
    hide Sound, Grows, Perform;
    match c {
      case WriteInteger(_, _) => SlotsKept(o, c);
      case Acquire(_) => SlotsKept(o, c);
      case Release(_) => SlotsKept(o, c);
      case CreatePackage(_) => PackagesKept(o, c);
      case WritePackage(_, _, _) => PackagesKept(o, c);
      case _ => BuffersKept(o, c);
    }
  }

  datatype Run = Run(overlay: Overlay, replies: seq<Reply>)

  datatype Capacity = Capacity(integers: nat, packages: nat, buffers: nat, mutexes: nat)

  function Fresh(c: Capacity): (o: Overlay)
    ensures Sound(o)
  {
    Overlay(Empties(c.integers), Empties(c.packages), Empties(c.buffers), Empties(c.mutexes))
  }

  /** Any sequence of calls on tables that start out empty. */
  function After(cap: Capacity, calls: seq<Call>): (r: Run)
    ensures Sound(r.overlay) && |r.replies| == |calls|
  {
    if calls == [] then Run(Fresh(cap), [])
    else
      var before, c := After(cap, calls[..|calls| - 1]), calls[|calls| - 1];
      PerformKeeps(before.overlay, c);
      var e := Perform(before.overlay, c);
      Run(e.overlay, before.replies + [e.reply])
  }

  lemma {:induction false} AfterKeepsCapacity(cap: Capacity, calls: seq<Call>)
    ensures var o := After(cap, calls).overlay;
            |o.integers| == cap.integers && |o.packages| == cap.packages
            && |o.buffers| == cap.buffers && |o.mutexes| == cap.mutexes
  {
    if calls != [] {
      AfterKeepsCapacity(cap, calls[..|calls| - 1]);
      PerformKeeps(After(cap, calls[..|calls| - 1]).overlay, calls[|calls| - 1]);
    }
  }

  /** The map the integer table stands for: bounded by its capacity. */
  function IntegerMap(cap: nat, calls: seq<Call>): map<nat, u64> {
    if calls == [] then map[]
    else
      var m, c := IntegerMap(cap, calls[..|calls| - 1]), calls[|calls| - 1];
      if c.WriteInteger? && (c.node in m || |m| < cap) then m[c.node := c.value] else m
  }

  lemma IntegerStep(o: Overlay, c: Call)
    requires Sound(o)
    ensures var m, e := View(o.integers), Perform(o, c);
            if c.WriteInteger? && (c.node in m || |m| < |o.integers|)
            then View(e.overlay.integers) == m[c.node := c.value] && e.reply == Done
            else e.overlay.integers == o.integers && (c.WriteInteger? ==> e.reply == Failed(Overflow))
  {
    hide View, Put;
    if c.WriteInteger? { PutRefinesMap(o.integers, c.node, c.value); }
  }

  /** Over any calls the integer table is that map, and a write is answered with an error exactly when
      the map is full and lacks the node. */
  lemma {:induction false} IntegersRefineMap(cap: Capacity, calls: seq<Call>)
    ensures View(After(cap, calls).overlay.integers) == IntegerMap(cap.integers, calls)
    ensures calls != [] && calls[|calls| - 1].WriteInteger? ==>
              var m := IntegerMap(cap.integers, calls[..|calls| - 1]);
              After(cap, calls).replies[|calls| - 1] ==
              if calls[|calls| - 1].node in m || |m| < cap.integers then Done else Failed(Overflow)
  {
    hide View, Perform;
    if calls == [] {
      EmptyView<nat, u64>(cap.integers);
    } else {
      var init, c := calls[..|calls| - 1], calls[|calls| - 1];
      IntegersRefineMap(cap, init);
      AfterKeepsCapacity(cap, init);
      IntegerStep(After(cap, init).overlay, c);
    }
  }

  /** The successful operations on one mutex, oldest first: true for an acquire, false for a release. */
  function Grants(cap: Capacity, calls: seq<Call>, node: nat): seq<bool> {
    if calls == [] then []
    else
      var rest, c := Grants(cap, calls[..|calls| - 1], node), calls[|calls| - 1];
      if (c.Acquire? || c.Release?) && c.node == node && After(cap, calls).replies[|calls| - 1] == Done
      then rest + [c.Acquire?] else rest
  }

  lemma HeldAfterPut(t: NodeTable<bool>, node: nat, value: bool, other: nat)
    requires Distinct(t) && Put(t, node, value).Ok?
    ensures Held(Put(t, node, value).value, other) == if other == node then value else Held(t, other)
  {
    PutElsewhere(t, node, value, other);
  }

  /** What one call does to one mutex. */
  lemma MutexStep(o: Overlay, c: Call, node: nat)
    requires Sound(o)
    ensures var e := Perform(o, c);
            var was, now := Held(o.mutexes, node), Held(e.overlay.mutexes, node);
            if (c.Acquire? || c.Release?) && c.node == node && e.reply == Done
            then was == c.Release? && now == c.Acquire?
            else now == was
  {
    var t := o.mutexes;
    match c {
      case Acquire(n) => if !Held(t, n) && Put(t, n, true).Ok? { HeldAfterPut(t, n, true, node); }
      case Release(n) => if Held(t, n) { HeldAfterPut(t, n, false, node); }
      case _ =>
    }
  }

  lemma MutexAfter(cap: Capacity, calls: seq<Call>, c: Call, node: nat)
    ensures var o, r := After(cap, calls).overlay, After(cap, calls + [c]);
            var was, now := Held(o.mutexes, node), Held(r.overlay.mutexes, node);
            && Grants(cap, calls + [c], node) ==
               Grants(cap, calls, node) +
               (if (c.Acquire? || c.Release?) && c.node == node && r.replies[|calls|] == Done then [c.Acquire?] else [])
            && if (c.Acquire? || c.Release?) && c.node == node && r.replies[|calls|] == Done
               then was == c.Release? && now == c.Acquire? else now == was
  {
    hide Perform, Held;
    assert (calls + [c])[..|calls|] == calls;
    MutexStep(After(cap, calls).overlay, c, node);
  }

  /** On every mutex, successful acquires and releases strictly alternate, starting with an acquire,
      and the mutex is held exactly between the two. */
  lemma {:induction false} AcquiresAlternate(cap: Capacity, calls: seq<Call>, node: nat)
    ensures var g := Grants(cap, calls, node);
            && (forall k :: 0 <= k < |g| ==> g[k] == (k % 2 == 0))
            && Held(After(cap, calls).overlay.mutexes, node) == (|g| % 2 == 1)
  {
    hide After, Grants, Held;
    if calls == [] {
      NothingGranted(cap, node);
    } else {
      var init, c := calls[..|calls| - 1], calls[|calls| - 1];
      assert calls == init + [c];
      AcquiresAlternate(cap, init, node);
      MutexAfter(cap, init, c, node);
    }
  }

  lemma NothingGranted(cap: Capacity, node: nat)
    ensures Grants(cap, [], node) == [] && !Held(After(cap, []).overlay.mutexes, node)
  {
  }

  lemma {:induction false} AfterGrows(cap: Capacity, calls: seq<Call>, k: nat)
    requires k <= |calls|
    ensures Grows(After(cap, calls[..k]).overlay, After(cap, calls).overlay)
    ensures After(cap, calls[..k]).replies == After(cap, calls).replies[..k]
    decreases |calls|
  {
    if k == |calls| {
      assert calls[..k] == calls;
    } else {
      var init := calls[..|calls| - 1];
      AfterGrows(cap, init, k);
      assert init[..k] == calls[..k];
      PerformKeeps(After(cap, init).overlay, calls[|calls| - 1]);
    }
  }

  /** The reply to call `k` and what it leaves, told from the calls before it. */
  lemma CallStep(cap: Capacity, calls: seq<Call>, k: nat)
    requires k < |calls|
    ensures var before := After(cap, calls[..k]).overlay;
            var e := Perform(before, calls[k]);
            && After(cap, calls).replies[k] == e.reply
            && Grows(e.overlay, After(cap, calls).overlay)
  {
    hide Perform, Grows;
    AfterGrows(cap, calls, k + 1);
    assert calls[..k + 1][..k] == calls[..k];
    assert After(cap, calls[..k + 1]).replies[k] == After(cap, calls).replies[k];
  }

  lemma GrowthBetween(cap: Capacity, calls: seq<Call>, i: nat, j: nat)
    requires i < j < |calls|
    ensures Grows(Perform(After(cap, calls[..i]).overlay, calls[i]).overlay, After(cap, calls[..j]).overlay)
  {
    hide Perform, Grows, After;
    CallStep(cap, calls[..j], i);
    assert calls[..j][..i] == calls[..i];
  }

  /** A buffer handle stays valid for ever with the length it was made with, and no two calls ever
      return the same one. */
  lemma BufferHandlesDistinct(cap: Capacity, calls: seq<Call>, i: nat, j: nat)
    requires i < j < |calls| && calls[i].CreateBuffer? && calls[j].CreateBuffer?
    requires After(cap, calls).replies[i].Made? && After(cap, calls).replies[j].Made?
    ensures After(cap, calls).replies[i].handle != After(cap, calls).replies[j].handle
    ensures var slot := BufferAt(After(cap, calls).overlay, After(cap, calls).replies[i].handle);
            slot.Some? && slot.value.len == calls[i].len
  {
    hide After;
    CallStep(cap, calls, i);
    CallStep(cap, calls, j);
    GrowthBetween(cap, calls, i, j);
  }

  /** And the same for package handles. */
  lemma PackageHandlesDistinct(cap: Capacity, calls: seq<Call>, i: nat, j: nat)
    requires i < j < |calls| && calls[i].CreatePackage? && calls[j].CreatePackage?
    requires After(cap, calls).replies[i].Made? && After(cap, calls).replies[j].Made?
    ensures After(cap, calls).replies[i].handle != After(cap, calls).replies[j].handle
    ensures var slot := PackageAt(After(cap, calls).overlay, After(cap, calls).replies[i].handle);
            slot.Some? && slot.value.len == calls[i].len
  {
    hide After;
    CallStep(cap, calls, i);
    CallStep(cap, calls, j);
    GrowthBetween(cap, calls, i, j);
  }

  /** What a buffer shows to readers: its bytes up to its length. */
  function Readable(o: Overlay, handle: nat): (r: seq<byte>)
    requires Sound(o) && BufferAt(o, handle).Some?
  {
    BufferAt(o, handle).value.bytes[..BufferAt(o, handle).value.len]
  }

  lemma CopyOntoItself(o: Overlay, handle: nat)
    requires Sound(o) && BufferAt(o, handle).Some?
    ensures Perform(o, CopyBytes(handle, Readable(o, handle))).overlay == o
  {
    var slot := BufferAt(o, handle).value;
    assert BufferOk(slot, handle);
    assert Fitted(Readable(o, handle), slot.len) == slot.bytes;
    assert o.buffers[handle := Some(slot)] == o.buffers;
  }

  /** A copy shows the source's bytes cut or padded with zeros to the buffer's own length, changes no
      other buffer, and copying a buffer onto itself changes nothing at all. */
  lemma CopyFits(cap: Capacity, calls: seq<Call>, handle: nat, bytes: seq<byte>)
    requires BufferAt(After(cap, calls).overlay, handle).Some?
    ensures var o := After(cap, calls).overlay;
            var o' := After(cap, calls + [CopyBytes(handle, bytes)]).overlay;
            && BufferAt(o', handle).Some?
            && |Readable(o', handle)| == |Readable(o, handle)|
            && (forall k :: 0 <= k < |Readable(o, handle)| ==>
                  Readable(o', handle)[k] == if k < |bytes| then bytes[k] else 0)
            && (forall h :: 0 <= h < |o.buffers| && h != handle ==> o'.buffers[h] == o.buffers[h])
            && (bytes == Readable(o, handle) ==> o' == o)
  {
    var o := After(cap, calls).overlay;
    var more := calls + [CopyBytes(handle, bytes)];
    assert more[..|calls|] == calls;
    var o' := After(cap, more).overlay;
    if bytes == Readable(o, handle) {
      var slot := BufferAt(o, handle).value;
      assert BufferOk(slot, handle);
      assert Fitted(bytes, slot.len) == slot.bytes;
      assert o'.buffers == o.buffers;
    }
  }

  // ---- The tables in place ----

  function Outcome(reply: Reply): Result<Unit> {
    match reply
    case Failed(e) => Err(e)
    case _ => Ok(Unit)
  }

  class Tables {
    var integers: NodeTable<u64>
    var packages: seq<Option<PackageSlot>>
    var buffers: seq<Option<BufferSlot>>
    var mutexes: NodeTable<bool>

    function Contents(): Overlay
      reads this
    {
      Overlay(integers, packages, buffers, mutexes)
    }

    ghost predicate Valid()
      reads this
    {
      Sound(Contents())
    }

    constructor (cap: Capacity)
      ensures Valid() && Contents() == Fresh(cap)
    {
      integers, mutexes := Empties(cap.integers), Empties(cap.mutexes);
      packages, buffers := Empties(cap.packages), Empties(cap.buffers);
    }

    method ReadInteger(node: nat) returns (r: Option<u64>)
      requires Valid()
      ensures r == if node in View(integers) then Some(View(integers)[node]) else None
    {
      ViewLookup(integers, node);
      var index := 0;
      while index < |integers|
        invariant 0 <= index <= |integers|
        invariant forall j :: 0 <= j < index ==> !Holds(integers[j], node)
      {
        if Holds(integers[index], node) {
          HolderIs(integers, node, index);
          return Some(integers[index].value.value);
        }
        index := index + 1;
      }
      return None;
    }

    /** One pass finds the node's slot, or remembers the first empty one. */
    method WriteInteger(node: nat, value: u64) returns (r: Result<Unit>)
      requires Valid()
      modifies this`integers
      ensures Valid() && Contents() == Perform(old(Contents()), Call.WriteInteger(node, value)).overlay
      ensures r == Outcome(Perform(old(Contents()), Call.WriteInteger(node, value)).reply)
      ensures r != Err(OutOfFuel)
    {
      PerformKeeps(Contents(), Call.WriteInteger(node, value));
      var empty: Option<nat> := None;
      var index := 0;
      while index < |integers|
        invariant 0 <= index <= |integers| && integers == old(integers)
        invariant forall j :: 0 <= j < index ==> !Holds(integers[j], node)
        invariant Passed(integers, index, empty)
      {
        if Holds(integers[index], node) {
          HolderIs(integers, node, index);
          integers := integers[index := Some(Slot(node, value))];
          return Ok(Unit);
        }
        if integers[index].None? && empty.None? { empty := Some(index); }
        index := index + 1;
      }
      if empty.None? { return Err(Overflow); }
      FirstEmptyIs(integers, empty.value);
      integers := integers[empty.value := Some(Slot(node, value))];
      return Ok(Unit);
    }

    method CreatePackage(len: byte) returns (r: Result<nat>)
      requires Valid()
      modifies this`packages
      ensures Valid() && Contents() == Perform(old(Contents()), Call.CreatePackage(len)).overlay
      ensures match Perform(old(Contents()), Call.CreatePackage(len)).reply
              case Made(h) => r == Ok(h)
              case Failed(e) => r == Err(e)
              case _ => false
      ensures r != Err(OutOfFuel)
    {
      PerformKeeps(Contents(), Call.CreatePackage(len));
      if len > MAX_PACKAGE_ELEMENTS { return Err(Overflow); }
      var index := 0;
      while index < |packages|
        invariant 0 <= index <= |packages| && packages == old(packages)
        invariant forall j :: 0 <= j < index ==> packages[j].Some?
      {
        if packages[index].None? {
          FirstEmptyIs(packages, index);
          if index > U16_MAX { return Err(Overflow); }
          packages := packages[index := Some(PackageSlot(index, len, Vacancies(MAX_PACKAGE_ELEMENTS)))];
          return Ok(index);
        }
        index := index + 1;
      }
      return Err(Overflow);
    }

    method CreateBuffer(len: byte) returns (r: Result<nat>)
      requires Valid()
      modifies this`buffers
      ensures Valid() && Contents() == Perform(old(Contents()), Call.CreateBuffer(len)).overlay
      ensures match Perform(old(Contents()), Call.CreateBuffer(len)).reply
              case Made(h) => r == Ok(h)
              case Failed(e) => r == Err(e)
              case _ => false
      ensures r != Err(OutOfFuel)
    {
      PerformKeeps(Contents(), Call.CreateBuffer(len));
      if len > MAX_BUFFER_BYTES { return Err(Overflow); }
      var index := 0;
      while index < |buffers|
        invariant 0 <= index <= |buffers| && buffers == old(buffers)
        invariant forall j :: 0 <= j < index ==> buffers[j].Some?
      {
        if buffers[index].None? {
          FirstEmptyIs(buffers, index);
          if index > U16_MAX { return Err(Overflow); }
          buffers := buffers[index := Some(BufferSlot(index, len, Zeros(MAX_BUFFER_BYTES)))];
          return Ok(index);
        }
        index := index + 1;
      }
      return Err(Overflow);
    }

    function ReadPackageValue(handle: nat, index: byte): Option<Aggregate>
      requires Valid()
      reads this
    {
      match PackageAt(Contents(), handle)
      case Some(slot) => if index < slot.len then Some(slot.elements[index]) else None
      case None => None
    }

    method WritePackageValue(handle: nat, index: byte, element: Aggregate) returns (r: Result<Unit>)
      requires Valid()
      modifies this`packages
      ensures Valid() && Contents() == Perform(old(Contents()), WritePackage(handle, index, element)).overlay
      ensures r == Outcome(Perform(old(Contents()), WritePackage(handle, index, element)).reply)
      ensures r != Err(OutOfFuel)
    {
      PerformKeeps(Contents(), WritePackage(handle, index, element));
      if handle >= |packages| || packages[handle].None? { return Err(InvalidState); }
      var slot := packages[handle].value;
      if index >= slot.len { return Err(InvalidState); }
      packages := packages[handle := Some(slot.(elements := slot.elements[index := element]))];
      return Ok(Unit);
    }

    function ReadBufferLen(handle: nat): Option<byte>
      reads this
    {
      match BufferAt(Contents(), handle) case Some(slot) => Some(slot.len) case None => None
    }

    function ReadBufferByte(handle: nat, index: byte): Option<byte>
      requires Valid()
      reads this
    {
      match BufferAt(Contents(), handle)
      case Some(slot) => if index < slot.len then Some(slot.bytes[index]) else None
      case None => None
    }

    method WriteBufferByte(handle: nat, index: byte, b: byte) returns (r: Result<Unit>)
      requires Valid()
      modifies this`buffers
      ensures Valid() && Contents() == Perform(old(Contents()), WriteBuffer(handle, index, b)).overlay
      ensures r == Outcome(Perform(old(Contents()), WriteBuffer(handle, index, b)).reply)
      ensures r != Err(OutOfFuel)
    {
      PerformKeeps(Contents(), WriteBuffer(handle, index, b));
      if handle >= |buffers| || buffers[handle].None? { return Err(InvalidState); }
      var slot := buffers[handle].value;
      if index >= slot.len { return Err(InvalidState); }
      buffers := buffers[handle := Some(slot.(bytes := slot.bytes[index := b]))];
      return Ok(Unit);
    }

    method CopyBytesIntoBuffer(handle: nat, bytes: seq<byte>) returns (r: Result<Unit>)
      requires Valid()
      modifies this`buffers
      ensures Valid() && Contents() == Perform(old(Contents()), CopyBytes(handle, bytes)).overlay
      ensures r == Outcome(Perform(old(Contents()), CopyBytes(handle, bytes)).reply)
      ensures r != Err(OutOfFuel)
    {
      PerformKeeps(Contents(), CopyBytes(handle, bytes));
      if handle >= |buffers| || buffers[handle].None? { return Err(InvalidState); }
      var slot := buffers[handle].value;
      var copied := if slot.len < |bytes| then slot.len else |bytes|;
      var cleared := Zeros(MAX_BUFFER_BYTES);
      var updated := bytes[..copied] + cleared[copied..];
      assert updated == Fitted(bytes, slot.len);
      buffers := buffers[handle := Some(slot.(bytes := updated))];
      return Ok(Unit);
    }

    method TryAcquireMutex(node: nat) returns (r: Result<bool>)
      requires Valid()
      modifies this`mutexes
      ensures Valid() && Contents() == Perform(old(Contents()), Acquire(node)).overlay
      ensures match Perform(old(Contents()), Acquire(node)).reply
              case Done => r == Ok(true)
              case Refused => r == Ok(false)
              case Failed(e) => r == Err(e)
              case Made(_) => false
      ensures r != Err(OutOfFuel)
    {
      PerformKeeps(Contents(), Acquire(node));
      var empty: Option<nat> := None;
      var index := 0;
      while index < |mutexes|
        invariant 0 <= index <= |mutexes| && mutexes == old(mutexes)
        invariant forall j :: 0 <= j < index ==> !Holds(mutexes[j], node)
        invariant Passed(mutexes, index, empty)
      {
        if Holds(mutexes[index], node) {
          HolderIs(mutexes, node, index);
          if mutexes[index].value.value { return Ok(false); }
          mutexes := mutexes[index := Some(Slot(node, true))];
          return Ok(true);
        }
        if mutexes[index].None? && empty.None? { empty := Some(index); }
        index := index + 1;
      }
      if empty.None? { return Err(Overflow); }
      FirstEmptyIs(mutexes, empty.value);
      mutexes := mutexes[empty.value := Some(Slot(node, true))];
      return Ok(true);
    }

    method ReleaseMutex(node: nat) returns (r: Result<Unit>)
      requires Valid()
      modifies this`mutexes
      ensures Valid() && Contents() == Perform(old(Contents()), Release(node)).overlay
      ensures r == Outcome(Perform(old(Contents()), Release(node)).reply)
      ensures r != Err(OutOfFuel)
    {
      PerformKeeps(Contents(), Release(node));
      var index := 0;
      while index < |mutexes|
        invariant 0 <= index <= |mutexes| && mutexes == old(mutexes)
        invariant forall j :: 0 <= j < index ==> !Holds(mutexes[j], node)
      {
        if Holds(mutexes[index], node) {
          HolderIs(mutexes, node, index);
          if !mutexes[index].value.value { return Err(InvalidState); }
          mutexes := mutexes[index := Some(Slot(node, false))];
          return Ok(Unit);
        }
        index := index + 1;
      }
      return Err(InvalidState);
    }
  }
}
