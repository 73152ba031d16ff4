/** Definition blocks loaded into the namespace table: every term object of the load-time grammar,
    as a step from one table to the next. */
module Loader {
  import opened Wrappers
  import opened Bits
  import opened Names
  import opened Fields
  import opened Namespace
  import opened LoaderTerms

  /** The storage handed to the loader and the definition blocks, the DSDT first. A block is an ACPI
      table payload, whose length is a 32-bit quantity. */
  datatype Plan = Plan(capacity: nat, blocks: seq<seq<byte>>)
  {
    predicate Valid() {
      forall b :: 0 <= b < |blocks| ==> |blocks[b]| <= U32_MAX
    }
  }

  /** Where the walk stands: a byte range of one block, read inside one scope. */
  datatype Place = Place(block: nat, at: nat, scope: Path, scopeId: nat)

  /** `bytes` is what the block holds at this place. */
  predicate Shows(plan: Plan, p: Place, bytes: seq<byte>) {
    && p.block < |plan.blocks|
    && p.at + |bytes| <= |plan.blocks[p.block]|
    && plan.blocks[p.block][p.at..p.at + |bytes|] == bytes
  }

  predicate ScopeRef(rs: Records, id: nat, path: Path) {
    id < |rs| && ScopeCapable(rs[id].kind) && rs[id].path == path
  }

  /** Every method body recorded for the block ends at or before `limit`. */
  ghost predicate Below(rs: Records, block: nat, limit: nat) {
    forall i :: 0 <= i < |rs| && IsMethod(rs[i]) && rs[i].payload.info.body.block == block ==>
      rs[i].payload.info.body.End() <= limit
  }

  ghost predicate Sound(plan: Plan, rs: Records) {
    Tree(rs) && Methods(plan.blocks, rs)
  }

  /** What the walk relies on before it reads a term object, and keeps after it. */
  ghost predicate Ready(plan: Plan, rs: Records, p: Place, bytes: seq<byte>) {
    && plan.Valid()
    && Sound(plan, rs)
    && Shows(plan, p, bytes)
    && ScopeRef(rs, p.scopeId, p.scope)
    && Below(rs, p.block, p.at)
  }

  ghost predicate Extends(plan: Plan, before: Records, after: Records) {
    before <= after && Sound(plan, after)
  }

  /** No Method record was added. */
  ghost predicate NoNewMethods(before: Records, after: Records) {
    before <= after && forall i :: |before| <= i < |after| ==> !IsMethod(after[i])
  }

  /** Every Method record added has its body in the block being walked. */
  ghost predicate FromBlock(before: Records, after: Records, block: nat) {
    before <= after && forall i :: |before| <= i < |after| && IsMethod(after[i]) ==>
      after[i].payload.info.body.block == block
  }

  // ---- Inserting records ----

  /** next_node_id and push_record together. */
  function Insert(plan: Plan, rs: Records, parent: nat, kind: ObjectKind, path: Path, body: Option<Location>,
                  payload: Payload): (r: Result<Records>)
    ensures r.Ok? <==> |rs| < plan.capacity && |rs| < U32_MAX
    ensures r.Ok? ==> r.value == rs + [Record(|rs|, Some(parent), kind, path, body, payload)]
  {
    if |rs| >= U32_MAX then Err(Fault)
    else if |rs| >= plan.capacity then Err(Overflow)
    else Ok(rs + [Record(|rs|, Some(parent), kind, path, body, payload)])
  }

  function InsertUnique(plan: Plan, rs: Records, parent: nat, kind: ObjectKind, path: Path, body: Option<Location>,
                        payload: Payload): (r: Result<Records>)
    ensures r.Ok? <==> Find(rs, path).None? && |rs| < plan.capacity && |rs| < U32_MAX
    ensures r.Ok? ==> r.value == rs + [Record(|rs|, Some(parent), kind, path, body, payload)]
  {
    if Find(rs, path).Some? then Err(NamespaceConflict) else Insert(plan, rs, parent, kind, path, body, payload)
  }

  /** The place in the tree a new record needs. */
  predicate Fits(rs: Records, parent: nat, kind: ObjectKind, path: Path) {
    && ScopeRef(rs, parent, if path == [] then [] else Parent(path))
    && (CheckedKind(kind) ==> Find(rs, path).None?)
  }

  lemma InsertKeepsTree(rs: Records, parent: nat, kind: ObjectKind, path: Path, body: Option<Location>,
                        payload: Payload)
    requires Tree(rs) && Fits(rs, parent, kind, path)
    ensures Tree(rs + [Record(|rs|, Some(parent), kind, path, body, payload)])
  {
    var rs' := rs + [Record(|rs|, Some(parent), kind, path, body, payload)];
    forall i | 0 <= i < |rs'| ensures Placed(rs', i) {
      if i < |rs| { assert Placed(rs, i); }
    }
  }

  lemma InsertKeepsSound(plan: Plan, rs: Records, parent: nat, kind: ObjectKind, path: Path, body: Option<Location>,
                         payload: Payload)
    requires Sound(plan, rs) && Fits(rs, parent, kind, path) && kind != Method && !payload.MethodPayload?
    ensures var rs' := rs + [Record(|rs|, Some(parent), kind, path, body, payload)];
            Extends(plan, rs, rs') && NoNewMethods(rs, rs')
  {
    InsertKeepsTree(rs, parent, kind, path, body, payload);
    var rs' := rs + [Record(|rs|, Some(parent), kind, path, body, payload)];
    forall i | 0 <= i < |rs'| ensures MethodOk(plan.blocks, rs'[i]) {
      if i < |rs| { assert MethodOk(plan.blocks, rs[i]); }
    }
    forall i, j | 0 <= i < j < |rs'| ensures BodiesApart(rs'[i], rs'[j]) {
      if j < |rs| { assert BodiesApart(rs[i], rs[j]); }
    }
  }

  /** The table with every missing scope of `path` added, outermost first. */
  function EnsureScope(plan: Plan, rs: Records, path: Path): (r: Result<Records>)
    requires Sound(plan, rs)
    ensures r.Ok? ==> Extends(plan, rs, r.value) && NoNewMethods(rs, r.value)
    ensures r.Ok? ==> Find(r.value, path).Some? && ScopeCapable(r.value[Find(r.value, path).value].kind)
    ensures r.Ok? ==> forall i :: |rs| <= i < |r.value| ==> r.value[i].kind == Scope && r.value[i].path <= path
    decreases |path|
  {
    if path == [] then
      assert Placed(rs, 0);
      Ok(rs)
    else
      var above :- EnsureScope(plan, rs, Parent(path));
      OneScope(plan, above, path)
  }

  /** The table with a scope at `path`, whose parent is there already. */
  function OneScope(plan: Plan, rs: Records, path: Path): (r: Result<Records>)
    requires Sound(plan, rs) && path != []
    requires Find(rs, Parent(path)).Some? && ScopeCapable(rs[Find(rs, Parent(path)).value].kind)
    ensures r.Ok? ==> Extends(plan, rs, r.value) && NoNewMethods(rs, r.value)
    ensures r.Ok? ==> Find(r.value, path).Some? && ScopeCapable(r.value[Find(r.value, path).value].kind)
    ensures r.Ok? ==> forall i :: |rs| <= i < |r.value| ==> r.value[i].kind == Scope && r.value[i].path == path
  {
    match Find(rs, path)
    case Some(i) => if ScopeCapable(rs[i].kind) then Ok(rs) else Err(NamespaceConflict)
    case None =>
      var parent := Find(rs, Parent(path)).value;
      InsertKeepsSound(plan, rs, parent, Scope, path, None, NoPayload);
      InsertUnique(plan, rs, parent, Scope, path, None, NoPayload)
  }

  function IdOf(rs: Records, path: Path): nat
    requires Find(rs, path).Some?
  {
    Find(rs, path).value
  }

  /** ensure_scope_path on a name's parent: the root for a root-level or empty path. */
  function Home(path: Path): Path {
    if path == [] then [] else Parent(path)
  }

  // ---- Leaf declarations ----

  /** The table after a term object, and how many bytes the object took. */
  datatype Loaded = Loaded(records: Records, consumed: nat)

  /** What one term object does to the table: it stays sound, and bodies stay in file order. */
  ghost predicate Kept(plan: Plan, rs: Records, p: Place, bytes: seq<byte>, l: Loaded)
  {
    && Extends(plan, rs, l.records)
    && FromBlock(rs, l.records, p.block)
    && Below(l.records, p.block, p.at + (if l.consumed < |bytes| then l.consumed else |bytes|))
  }

  lemma LeafKept(plan: Plan, rs: Records, p: Place, bytes: seq<byte>, rs': Records, consumed: nat)
    requires Ready(plan, rs, p, bytes) && Extends(plan, rs, rs') && NoNewMethods(rs, rs')
    ensures Kept(plan, rs, p, bytes, Loaded(rs', consumed))
  {
  }

  /** The table gained one object of this kind at this path, as its last record, and before it only the
      scopes above it that were missing. */
  ghost predicate Adds(rs: Records, rs': Records, kind: ObjectKind, path: Path) {
    && |rs| < |rs'| && rs'[|rs'| - 1].kind == kind && rs'[|rs'| - 1].path == path
    && forall i :: |rs| <= i < |rs'| - 1 ==> rs'[i].kind == Scope && rs'[i].path <= Home(path)
  }

  /** The table gained at most missing scopes above this path. */
  ghost predicate OnlyScopes(rs: Records, rs': Records, path: Path) {
    rs <= rs' && forall i :: |rs| <= i < |rs'| ==> rs'[i].kind == Scope && rs'[i].path <= Home(path)
  }

  lemma ScopesAboveKnown(plan: Plan, rs: Records, above: Records, path: Path)
    requires Sound(plan, rs) && OnlyScopes(rs, above, path)
    ensures Find(above, path).Some? <==> Find(rs, path).Some?
  {
    assert Placed(rs, 0);
    if Find(rs, path).Some? { assert above[Find(rs, path).value] == rs[Find(rs, path).value]; }
  }

  /** Among what was added, an object of this kind and body comes first, after its missing scopes. */
  ghost predicate Begins(rs: Records, rs': Records, kind: ObjectKind, path: Path, body: Location) {
    exists n :: |rs| < n <= |rs'| && Adds(rs, rs'[..n], kind, path) && rs'[n - 1].body == Some(body)
  }

  /** The path a name at some offset means in the scope. */
  function PathAt(bytes: seq<byte>, at: nat, scope: Path): Result<Path> {
    if at > |bytes| then Err(Fault)
    else
      var name :- ParseName(bytes[at..]);
      Resolved(scope, name)
  }

  /** The path meant by the second of two names after an opcode byte. */
  function SecondPath(bytes: seq<byte>, scope: Path): Result<Path>
    requires bytes != []
  {
    var first :- ParseName(bytes[1..]);
    PathAt(bytes, 1 + first.consumed, scope)
  }

  /** Declares one object of a kind whose path must be new, adding the scopes above it. */
  function Declare(plan: Plan, rs: Records, path: Path, kind: ObjectKind, body: Option<Location>, payload: Payload)
    : (r: Result<Records>)
    requires Sound(plan, rs) && CheckedKind(kind) && !payload.MethodPayload?
    ensures r.Ok? ==> Extends(plan, rs, r.value) && NoNewMethods(rs, r.value)
    ensures r.Ok? ==> Adds(rs, r.value, kind, path)
    ensures r.Ok? ==> r.value[|r.value| - 1].body == body && r.value[|r.value| - 1].payload == payload
  {
    var above :- EnsureScope(plan, rs, Home(path));
    var parent := IdOf(above, Home(path));
    if Find(above, path).Some? then Err(NamespaceConflict)
    else
      InsertKeepsSound(plan, above, parent, kind, path, body, payload);
      Insert(plan, above, parent, kind, path, body, payload)
  }

  /** Declares an object that is nothing but its name. */
  function DeclareLeaf(plan: Plan, rs: Records, p: Place, bytes: seq<byte>, path: Path, kind: ObjectKind, consumed: nat)
    : (r: Result<Loaded>)
    requires Ready(plan, rs, p, bytes) && CheckedKind(kind)
    ensures r.Ok? ==> Kept(plan, rs, p, bytes, r.value) && r.value.consumed == consumed
    ensures r.Ok? ==> Adds(rs, r.value.records, kind, path)
  {
    var rs' :- Declare(plan, rs, path, kind, None, NoPayload);
    LeafKept(plan, rs, p, bytes, rs', consumed);
    Ok(Loaded(rs', consumed))
  }

  function AliasOp(plan: Plan, rs: Records, p: Place, bytes: seq<byte>): (r: Result<Loaded>)
    requires Ready(plan, rs, p, bytes) && bytes != []
    ensures r.Ok? ==> Kept(plan, rs, p, bytes, r.value)
    ensures r.Ok? ==> SecondPath(bytes, p.scope).Ok? && Adds(rs, r.value.records, Alias, SecondPath(bytes, p.scope).value)
  {
    var source :- ParseName(bytes[1..]);
    var target :- ParseName(bytes[1 + source.consumed..]);
    var path :- Resolved(p.scope, target);
    DeclareLeaf(plan, rs, p, bytes, path, Alias, 1 + source.consumed + target.consumed)
  }

  function NameOp(plan: Plan, rs: Records, p: Place, bytes: seq<byte>): (r: Result<Loaded>)
    requires Ready(plan, rs, p, bytes) && bytes != []
    ensures r.Ok? ==> Kept(plan, rs, p, bytes, r.value)
    ensures r.Ok? ==> PathAt(bytes, 1, p.scope).Ok? && Adds(rs, r.value.records, Name, PathAt(bytes, 1, p.scope).value)
  {
    var name :- ParseName(bytes[1..]);
    var path :- Resolved(p.scope, name);
    var above :- EnsureScope(plan, rs, Home(path));
    var start := 1 + name.consumed;
    var init :- TermArg(bytes[start..]);
    var payload := match init.value case Some(v) => IntegerPayload(v) case None => NoPayload;
    var rs' :- Declare(plan, rs, path, Name, Some(Location(p.block, p.at + start, init.consumed)), payload);
    LeafKept(plan, rs, p, bytes, rs', start + init.consumed);
    Ok(Loaded(rs', start + init.consumed))
  }

  function ExternalOp(plan: Plan, rs: Records, p: Place, bytes: seq<byte>): (r: Result<Loaded>)
    requires Ready(plan, rs, p, bytes) && bytes != []
    ensures r.Ok? ==> Kept(plan, rs, p, bytes, r.value)
    ensures r.Ok? ==> PathAt(bytes, 1, p.scope).Ok?
                      && var path := PathAt(bytes, 1, p.scope).value;
                         if Find(rs, path).Some? then OnlyScopes(rs, r.value.records, path)
                         else Adds(rs, r.value.records, External, path)
  {
    var name :- ParseName(bytes[1..]);
    var path :- Resolved(p.scope, name);
    var above :- EnsureScope(plan, rs, Home(path));
    ScopesAboveKnown(plan, rs, above, path);
    var rs' :- if Find(above, path).Some? then Ok(above) else Declare(plan, rs, path, External, None, NoPayload);
    if |bytes| < 1 + name.consumed + 2 then Err(Truncated)
    else
      LeafKept(plan, rs, p, bytes, rs', 1 + name.consumed + 2);
      Ok(Loaded(rs', 1 + name.consumed + 2))
  }

  /** Skips `count` term arguments. */
  function SkipArgs(bytes: seq<byte>, cursor: nat, count: nat): (r: Result<nat>)
    ensures r.Ok? ==> cursor <= r.value
    decreases count
  {
    if count == 0 then Ok(cursor)
    else if cursor > |bytes| then Err(Fault)
    else
      var arg :- TermArg(bytes[cursor..]);
      SkipArgs(bytes, cursor + arg.consumed, count - 1)
  }

  function CreateFieldOp(plan: Plan, rs: Records, p: Place, bytes: seq<byte>, start: nat, args: nat)
    : (r: Result<Loaded>)
    requires Ready(plan, rs, p, bytes) && bytes != [] && start > 0
    ensures r.Ok? ==> Kept(plan, rs, p, bytes, r.value) && r.value.consumed > 0
    ensures r.Ok? ==> SkipArgs(bytes, start, args).Ok?
                      && var path := PathAt(bytes, SkipArgs(bytes, start, args).value, p.scope);
                         path.Ok? && Adds(rs, r.value.records, BufferField, path.value)
  {
    var cursor :- SkipArgs(bytes, start, args);
    if cursor > |bytes| then Err(Fault)
    else
      var name :- ParseName(bytes[cursor..]);
      var path :- Resolved(p.scope, name);
      DeclareLeaf(plan, rs, p, bytes, path, BufferField, cursor + name.consumed)
  }

  function MutexOp(plan: Plan, rs: Records, p: Place, bytes: seq<byte>): (r: Result<Loaded>)
    requires Ready(plan, rs, p, bytes) && |bytes| >= 2
    ensures r.Ok? ==> Kept(plan, rs, p, bytes, r.value)
    ensures r.Ok? ==> PathAt(bytes, 2, p.scope).Ok? && Adds(rs, r.value.records, Mutex, PathAt(bytes, 2, p.scope).value)
  {
    var name :- ParseName(bytes[2..]);
    var path :- Resolved(p.scope, name);
    var above :- EnsureScope(plan, rs, Home(path));
    if |bytes| < 2 + name.consumed + 1 then Err(Truncated)
    else
      DeclareLeaf(plan, rs, p, bytes, path, Mutex, 2 + name.consumed + 1)
  }

  function EventOp(plan: Plan, rs: Records, p: Place, bytes: seq<byte>): (r: Result<Loaded>)
    requires Ready(plan, rs, p, bytes) && |bytes| >= 2
    ensures r.Ok? ==> Kept(plan, rs, p, bytes, r.value)
    ensures r.Ok? ==> PathAt(bytes, 2, p.scope).Ok? && Adds(rs, r.value.records, Event, PathAt(bytes, 2, p.scope).value)
  {
    var name :- ParseName(bytes[2..]);
    var path :- Resolved(p.scope, name);
    DeclareLeaf(plan, rs, p, bytes, path, Event, 2 + name.consumed)
  }

  function AddressSpace(value: byte): Space {
    match value
    case 0x00 => SystemMemory
    case 0x01 => SystemIo
    case 0x02 => PciConfig
    case 0x03 => EmbeddedControl
    case 0x04 => SmBus
    case 0x05 => Cmos
    case 0x06 => PciBarTarget
    case 0x07 => Ipmi
    case 0x08 => Gpio
    case 0x09 => GenericSerialBus
    case 0x0A => PlatformCommChannel
    case 0x7F => FunctionalFixedHardware
    case _ => Oem(value)
  }

  /** OpRegions are inserted without a duplicate check. */
  function OpRegionOp(plan: Plan, rs: Records, p: Place, bytes: seq<byte>): (r: Result<Loaded>)
    requires Ready(plan, rs, p, bytes) && |bytes| >= 2
    ensures r.Ok? ==> Kept(plan, rs, p, bytes, r.value)
    ensures r.Ok? ==> PathAt(bytes, 2, p.scope).Ok? && Adds(rs, r.value.records, OpRegion, PathAt(bytes, 2, p.scope).value)
  {
    var name :- ParseName(bytes[2..]);
    var path :- Resolved(p.scope, name);
    var above :- EnsureScope(plan, rs, Home(path));
    var space := 2 + name.consumed;
    if |bytes| <= space then Err(Truncated)
    else
      var offset :- TermArg(bytes[space + 1..]);
      if space + 1 + offset.consumed > |bytes| then Err(Fault)
      else
        var length :- TermArg(bytes[space + 1 + offset.consumed..]);
        var parent := IdOf(above, Home(path));
        var payload := RegionPayload(RegionInfo(|above|, AddressSpace(bytes[space]), offset.value, length.value));
        InsertKeepsSound(plan, above, parent, OpRegion, path, None, payload);
        var rs' :- Insert(plan, above, parent, OpRegion, path, None, payload);
        var consumed := space + 1 + offset.consumed + length.consumed;
        LeafKept(plan, rs, p, bytes, rs', consumed);
        Ok(Loaded(rs', consumed))
  }

  // ---- Field lists ----

  function SaturatingAdd(a: u32, b: u32): u32 {
    if a + b > U32_MAX then U32_MAX else a + b
  }

  function FieldAccess(flags: byte): AccessKind {
    match flags % 16
    case 0 => AnyAccess
    case 1 => ByteAccess
    case 2 => WordAccess
    case 3 => DWordAccess
    case 4 => QWordAccess
    case 5 => BufferAccess
    case _ => AnyAccess
  }

  function FieldUpdate(flags: byte): UpdateRule {
    match flags / 32 % 4
    case 1 => WriteAsOnes
    case 2 => WriteAsZeros
    case _ => Preserve
  }

  /** The update rule is in bits 5 and 6 of the flags: 01 fills with ones, 10 with zeros, and both other
      patterns preserve. */
  lemma UpdateRuleBits(flags: byte)
    ensures FieldUpdate(flags).WriteAsOnes? <==> Bit(flags, 5) && !Bit(flags, 6)
    ensures FieldUpdate(flags).WriteAsZeros? <==> Bit(flags, 6) && !Bit(flags, 5)
    ensures FieldUpdate(flags).Preserve? <==> (Bit(flags, 5) <==> Bit(flags, 6))
  {
    hide Bit, Pow2;
    FlagDigits(flags);
    TwoDigits(flags / 32);
  }

  lemma FlagDigits(flags: byte)
    ensures Bit(flags, 5) == (flags / 32 % 2 == 1) && Bit(flags, 6) == (flags / 64 % 2 == 1)
  {
    hide Bit;
    BitIsDigit(flags, 5);
    BitIsDigit(flags, 6);
    assert Pow2(3) == 8;
    assert Pow2(5) == 32 && Pow2(6) == 64;
  }

  lemma TwoDigits(x: nat)
    ensures x % 4 == x % 2 + 2 * (x / 2 % 2)
  {
  }

  /** The access width in bytes, where the low four bits of the flags name one. */
  function AccessBytes(access: AccessKind): Option<nat> {
    match access
    case ByteAccess => Some(1)
    case WordAccess => Some(2)
    case DWordAccess => Some(4)
    case QWordAccess => Some(8)
    case _ => None
  }

  /** Low bits 1 to 4 double the width from one byte to eight, 5 is buffer access, all others any access. */
  lemma AccessBits(flags: byte)
    ensures 1 <= flags % 16 <= 4 ==> AccessBytes(FieldAccess(flags)) == Some(Pow2(flags % 16 - 1))
    ensures flags % 16 == 5 <==> FieldAccess(flags).BufferAccess?
    ensures flags % 16 == 0 || flags % 16 > 5 <==> FieldAccess(flags).AnyAccess?
  {
    assert Pow2(0) == 1 && Pow2(1) == 2 && Pow2(2) == 4 && Pow2(3) == 8;
  }

  /** Which byte declares which address space; every byte that names none declares a vendor's own. */
  lemma SpaceBytes(b: byte)
    ensures AddressSpace(b).SystemMemory? <==> b == 0
    ensures AddressSpace(b).SystemIo? <==> b == 1
    ensures AddressSpace(b).PciConfig? <==> b == 2
    ensures AddressSpace(b).EmbeddedControl? <==> b == 3
    ensures AddressSpace(b).SmBus? <==> b == 4
    ensures AddressSpace(b).Cmos? <==> b == 5
    ensures AddressSpace(b).PciBarTarget? <==> b == 6
    ensures AddressSpace(b).Ipmi? <==> b == 7
    ensures AddressSpace(b).Gpio? <==> b == 8
    ensures AddressSpace(b).GenericSerialBus? <==> b == 9
    ensures AddressSpace(b).PlatformCommChannel? <==> b == 10
    ensures AddressSpace(b).FunctionalFixedHardware? <==> b == 0x7F
    ensures AddressSpace(b) == Oem(b) <==> b > 10 && b != 0x7F
  {
  }

  /** What the fields of one list share: the scope they are declared in, their region and flags. */
  datatype FieldHome = FieldHome(scope: Path, scopeId: nat, region: Option<nat>, flags: byte)

  predicate FieldRecord(r: Record, h: FieldHome) {
    && r.kind == Field && r.payload.FieldPayload?
    && r.parent == Some(h.scopeId) && r.path != [] && Parent(r.path) == h.scope
    && r.payload.field.node == r.id && r.payload.field.region == h.region
    && r.payload.field.update == FieldUpdate(h.flags) && r.payload.field.access == FieldAccess(h.flags)
  }

  /** A field at or past an offset: offsets never go back. */
  predicate StartsAt(r: Record, bitOffset: u32) {
    r.payload.FieldPayload? && bitOffset <= r.payload.field.bitOffset
  }

  /** A later field starts where an earlier one ends or beyond, unless offsets hit the top. */
  predicate Follows(f: Record, g: Record) {
    && f.payload.FieldPayload?
    && StartsAt(g, SaturatingAdd(f.payload.field.bitOffset, f.payload.field.bitWidth))
  }

  /** One entry of a field list and where the next begins: a skip, an entry that takes no bits, or a
      named field. */
  datatype Entry = Gap(bits: u32, next: nat) | Item(width: u32, next: nat)

  function EntryAt(list: seq<byte>, cursor: nat): (r: Result<Entry>)
    requires cursor < |list|
    ensures r.Ok? ==> r.value.next > cursor
    ensures r != Err(OutOfFuel)
    ensures r.Ok? && r.value.Item? ==> cursor + 4 <= |list| && AllNameChars(list[cursor..cursor + 4])
  {
    match list[cursor]
    case 0x00 => var skip :- ParsePkg(list[cursor + 1..]); Ok(Gap(skip.value, cursor + 1 + skip.encoded))
    case 0x01 => Ok(Gap(0, cursor + 3))
    case 0x02 => var name :- ParseName(list[cursor + 1..]); Ok(Gap(0, cursor + 1 + name.consumed))
    case 0x03 => Ok(Gap(0, cursor + 4))
    case _ => var width :- FieldWidth(list, cursor); Ok(Item(width.value, cursor + 4 + width.encoded))
  }

  /** The entries of a FieldOp or IndexFieldOp list from `cursor` on. Fields are inserted without a
      duplicate check. */
  function FieldEntries(plan: Plan, rs: Records, list: seq<byte>, cursor: nat, h: FieldHome, bitOffset: u32)
    : (r: Result<Records>)
    requires Sound(plan, rs) && ScopeRef(rs, h.scopeId, h.scope)
    ensures r.Ok? ==> Extends(plan, rs, r.value) && NoNewMethods(rs, r.value)
    ensures r.Ok? ==> forall i :: |rs| <= i < |r.value| ==> FieldRecord(r.value[i], h)
    ensures r.Ok? ==> forall i :: |rs| <= i < |r.value| ==> StartsAt(r.value[i], bitOffset)
    ensures r.Ok? ==> forall i, j :: |rs| <= i < j < |r.value| ==> Follows(r.value[i], r.value[j])
    decreases |list| - cursor
  {
    if cursor >= |list| then Ok(rs)
    else
      var entry :- EntryAt(list, cursor);
      match entry
      case Gap(bits, next) => FieldEntries(plan, rs, list, next, h, SaturatingAdd(bitOffset, bits))
      case Item(width, next) =>
        var rs' :- OneField(plan, rs, list, cursor, h, bitOffset, width);
        assert FieldRecord(rs'[|rs|], h);
        FieldEntries(plan, rs', list, next, h, SaturatingAdd(bitOffset, width))
  }

  /** A named entry: four name bytes and the field's width as a package length. */
  function FieldWidth(list: seq<byte>, cursor: nat): (r: Result<PkgLength>)
    ensures r.Ok? ==> cursor + 4 <= |list| && AllNameChars(list[cursor..cursor + 4])
    ensures r.Ok? ==> r.value.value < 0x1000_0000 && r.value.encoded >= 1
    ensures r != Err(OutOfFuel)
  {
    if cursor + 4 > |list| then Err(Truncated)
    else if !AllNameChars(list[cursor..cursor + 4]) then Err(InvalidName)
    else ParsePkg(list[cursor + 4..])
  }

  function OneField(plan: Plan, rs: Records, list: seq<byte>, cursor: nat, h: FieldHome, bitOffset: u32, width: u32)
    : (r: Result<Records>)
    requires Sound(plan, rs) && ScopeRef(rs, h.scopeId, h.scope)
    requires cursor + 4 <= |list| && AllNameChars(list[cursor..cursor + 4])
    ensures r.Ok? ==> Extends(plan, rs, r.value) && NoNewMethods(rs, r.value)
    ensures r.Ok? ==> |r.value| == |rs| + 1 && FieldRecord(r.value[|rs|], h)
    ensures r.Ok? ==> r.value[|rs|].payload.field.bitOffset == bitOffset
                      && r.value[|rs|].payload.field.bitWidth == width
                      && r.value[|rs|].path == h.scope + [list[cursor..cursor + 4]]
  {
    if |h.scope| >= MAX_SEGMENTS then Err(Overflow)
    else
      var path: Path := h.scope + [list[cursor..cursor + 4]];
      var info := FieldInfo(|rs|, h.region, bitOffset, width, FieldAccess(h.flags), FieldUpdate(h.flags));
      assert Parent(path) == h.scope;
      InsertKeepsSound(plan, rs, h.scopeId, Field, path, None, FieldPayload(info));
      Insert(plan, rs, h.scopeId, Field, path, None, FieldPayload(info))
  }

  // ---- Where the fields of a list lie ----

  /** One named entry of a field list: its exact start counts every skip and width before it. */
  datatype Span = Span(name: NameSeg, start: nat, width: u32)

  /** The named entries of a list from `cursor` on, the first bit there being bit `at`. */
  function Spans(list: seq<byte>, cursor: nat, at: nat): Result<seq<Span>>
    decreases |list| - cursor
  {
    if cursor >= |list| then Ok([])
    else
      var entry :- EntryAt(list, cursor);
      match entry
      case Gap(bits, next) => Spans(list, next, at + bits)
      case Item(width, next) =>
        var rest :- Spans(list, next, at + width);
        Ok([Span(list[cursor..cursor + 4], at, width)] + rest)
  }

  function Saturated(n: nat): u32 {
    if n > U32_MAX then U32_MAX else n
  }

  /** The record of a span: in its own scope, as wide as it says, and where it says unless offsets have
      hit the top. */
  predicate LaidAt(r: Record, span: Span, h: FieldHome) {
    && FieldRecord(r, h) && r.path == h.scope + [span.name]
    && r.payload.field.bitOffset == Saturated(span.start) && r.payload.field.bitWidth == span.width
  }

  /** The table gained one field for each span, in order, and nothing else. */
  ghost predicate LaidOut(rs: Records, rs': Records, spans: seq<Span>, h: FieldHome) {
    && rs <= rs' && |rs'| == |rs| + |spans|
    && forall k :: 0 <= k < |spans| ==> LaidAt(rs'[|rs| + k], spans[k], h)
  }

  ghost predicate LaysOut(rs: Records, rs': Records, list: seq<byte>, cursor: nat, h: FieldHome) {
    Spans(list, cursor, 0).Ok? && LaidOut(rs, rs', Spans(list, cursor, 0).value, h)
  }

  /** The fields of a list are laid out as its spans say. */
  lemma {:induction false} FieldsLaidOut(plan: Plan, rs: Records, list: seq<byte>, cursor: nat, h: FieldHome, at: nat)
    requires Sound(plan, rs) && ScopeRef(rs, h.scopeId, h.scope)
    requires FieldEntries(plan, rs, list, cursor, h, Saturated(at)).Ok?
    ensures Spans(list, cursor, at).Ok?
    ensures LaidOut(rs, FieldEntries(plan, rs, list, cursor, h, Saturated(at)).value, Spans(list, cursor, at).value, h)
    decreases |list| - cursor
  {
    hide Sound, EntryAt, OneField;
    if cursor < |list| {
      match EntryAt(list, cursor).value {
        case Gap(bits, next) => FieldsLaidOut(plan, rs, list, next, h, at + bits);
        case Item(width, next) =>
          var rs1 := OneField(plan, rs, list, cursor, h, Saturated(at), width).value;
          FieldsLaidOut(plan, rs1, list, next, h, at + width);
          FieldThenRest(rs, rs1, FieldEntries(plan, rs, list, cursor, h, Saturated(at)).value,
                        Span(list[cursor..cursor + 4], at, width), Spans(list, next, at + width).value, h);
      }
    }
  }

  lemma FieldThenRest(rs: Records, rs1: Records, rs': Records, span: Span, rest: seq<Span>, h: FieldHome)
    requires rs <= rs1 && |rs1| == |rs| + 1 && LaidAt(rs1[|rs|], span, h) && LaidOut(rs1, rs', rest, h)
    ensures LaidOut(rs, rs', [span] + rest, h)
  {
    forall k | 0 <= k < 1 + |rest| ensures LaidAt(rs'[|rs| + k], ([span] + rest)[k], h) {
      if k > 0 { assert LaidAt(rs'[|rs1| + (k - 1)], rest[k - 1], h); }
    }
  }

  /** Each span starts where the one before it ends, or later. */
  lemma {:induction false} SpansInOrder(list: seq<byte>, cursor: nat, at: nat, a: nat, b: nat)
    requires Spans(list, cursor, at).Ok? && a < b < |Spans(list, cursor, at).value|
    ensures var spans := Spans(list, cursor, at).value;
            at <= spans[a].start && spans[a].start + spans[a].width <= spans[b].start
    decreases |list| - cursor
  {
    hide EntryAt;
    match EntryAt(list, cursor).value {
      case Gap(bits, next) => SpansInOrder(list, next, at + bits, a, b);
      case Item(width, next) =>
        if a > 0 { SpansInOrder(list, next, at + width, a - 1, b - 1); }
        else { SpanNotBefore(list, next, at + width, b - 1); }
    }
  }

  lemma {:induction false} SpanNotBefore(list: seq<byte>, cursor: nat, at: nat, a: nat)
    requires Spans(list, cursor, at).Ok? && a < |Spans(list, cursor, at).value|
    ensures at <= Spans(list, cursor, at).value[a].start
    decreases |list| - cursor
  {
    hide EntryAt;
    match EntryAt(list, cursor).value {
      case Gap(bits, next) => SpanNotBefore(list, next, at + bits, a);
      case Item(width, next) => if a > 0 { SpanNotBefore(list, next, at + width, a - 1); }
    }
  }

  predicate DisjointRecords(f: Record, g: Record)
    requires f.payload.FieldPayload? && g.payload.FieldPayload?
  {
    DisjointFields(f.payload.field.bitOffset, f.payload.field.bitWidth, g.payload.field.bitOffset, g.payload.field.bitWidth)
  }

  /** Two nonempty fields of one list are disjoint exactly when the skips and widths up to and including
      the first of them add up to a 32-bit offset. */
  lemma FieldsOfOneListDisjoint(plan: Plan, rs: Records, list: seq<byte>, cursor: nat, h: FieldHome, a: nat, b: nat)
    requires Sound(plan, rs) && ScopeRef(rs, h.scopeId, h.scope)
    requires FieldEntries(plan, rs, list, cursor, h, 0).Ok? && Spans(list, cursor, 0).Ok?
    requires a < b < |Spans(list, cursor, 0).value|
    requires Spans(list, cursor, 0).value[a].width > 0 && Spans(list, cursor, 0).value[b].width > 0
    ensures var rs', f := FieldEntries(plan, rs, list, cursor, h, 0).value, Spans(list, cursor, 0).value[a];
            && LaidOut(rs, rs', Spans(list, cursor, 0).value, h)
            && (DisjointRecords(rs'[|rs| + a], rs'[|rs| + b]) <==> f.start + f.width <= U32_MAX)
  {
    hide FieldEntries, Spans, Sound, ScopeRef, FieldRecord;
    FieldsLaidOut(plan, rs, list, cursor, h, 0);
    SpansInOrder(list, cursor, 0, a, b);
    var rs', spans := FieldEntries(plan, rs, list, cursor, h, 0).value, Spans(list, cursor, 0).value;
    assert LaidAt(rs'[|rs| + a], spans[a], h) && LaidAt(rs'[|rs| + b], spans[b], h);
    FieldIs(rs'[|rs| + a], h);
    FieldIs(rs'[|rs| + b], h);
  }

  lemma FieldIs(r: Record, h: FieldHome)
    requires FieldRecord(r, h)
    ensures r.payload.FieldPayload?
  {
  }

  // ---- A list whose fields overlap ----

  const SKIP: nat := 0xFFF_FFFF

  /** Seventeen skips of the largest size, then two fields of eight bits each. */
  function Skips(n: nat): (r: seq<byte>)
    ensures |r| == 5 * n
    ensures forall k :: 0 <= k < n ==> r[5 * k..5 * k + 5] == [0x00, 0xCF, 0xFF, 0xFF, 0xFF]
  {
    if n == 0 then [] else
      var init := Skips(n - 1);
      var r := init + [0x00, 0xCF, 0xFF, 0xFF, 0xFF];
      assert forall k :: 0 <= k < n - 1 ==> r[5 * k..5 * k + 5] == init[5 * k..5 * k + 5];
      r
  }

  const TWO_FIELDS: seq<byte> := [0x41, 0x41, 0x41, 0x41, 0x08, 0x42, 0x42, 0x42, 0x42, 0x08]
  const OVERLAPPING: seq<byte> := Skips(17) + TWO_FIELDS

  lemma SkipRead(list: seq<byte>, cursor: nat)
    requires cursor + 5 <= |list| && list[cursor..cursor + 5] == [0x00, 0xCF, 0xFF, 0xFF, 0xFF]
    ensures EntryAt(list, cursor) == Ok(Gap(SKIP, cursor + 5))
  {
    var five, raw := list[cursor..cursor + 5], list[cursor + 1..];
    assert list[cursor] == five[0] && raw[0] == five[1];
    assert raw[1] == five[2] && raw[2] == five[3] && raw[3] == five[4];
    assert raw[1..4] == [0xFF, 0xFF, 0xFF];
    Digits3(0xFF, 0xFF, 0xFF);
  }

  lemma {:induction false} SkipsRead(plan: Plan, rs: Records, h: FieldHome, k: nat)
    requires Sound(plan, rs) && ScopeRef(rs, h.scopeId, h.scope) && k <= 17
    ensures FieldEntries(plan, rs, OVERLAPPING, 0, h, 0) == FieldEntries(plan, rs, OVERLAPPING, 5 * k, h, Saturated(k * SKIP))
  {
    hide EntryAt, Sound, Skips, OneField, ScopeRef;
    if k > 0 {
      SkipsRead(plan, rs, h, k - 1);
      var c := 5 * (k - 1);
      assert OVERLAPPING[c..c + 5] == Skips(17)[c..c + 5];
      SkipRead(OVERLAPPING, c);
    }
  }

  lemma WidthRead(list: seq<byte>, cursor: nat, letter: byte)
    requires cursor + 5 <= |list| && list[cursor..cursor + 5] == [letter, letter, letter, letter, 0x08]
    requires letter == 0x41 || letter == 0x42
    ensures EntryAt(list, cursor) == Ok(Item(8, cursor + 5))
    ensures list[cursor..cursor + 4] == [letter, letter, letter, letter]
  {
    var five := list[cursor..cursor + 5];
    assert list[cursor] == five[0] && list[cursor..cursor + 4] == five[..4] && list[cursor + 4..][0] == five[4];
  }

  /** Two fields one after the other at the top of the offset range. */
  lemma TwoFieldsAtTheTop(plan: Plan, rs: Records, h: FieldHome)
    requires Sound(plan, rs) && ScopeRef(rs, h.scopeId, h.scope) && |h.scope| < MAX_SEGMENTS
    requires |rs| + 2 <= plan.capacity && |rs| + 2 <= U32_MAX
    ensures FieldEntries(plan, rs, OVERLAPPING, 85, h, U32_MAX).Ok?
  {
    hide EntryAt, Sound, Skips, ScopeRef;
    assert OVERLAPPING[85..90] == TWO_FIELDS[..5];
    assert OVERLAPPING[90..95] == TWO_FIELDS[5..];
    WidthRead(OVERLAPPING, 85, 0x41);
    WidthRead(OVERLAPPING, 90, 0x42);
    var one := OneField(plan, rs, OVERLAPPING, 85, h, U32_MAX, 8);
    assert one.Ok?;
    ScopeStays(rs, one.value, h);
    assert FieldEntries(plan, one.value, OVERLAPPING, 90, h, U32_MAX).Ok?;
  }

  lemma ScopeStays(rs: Records, rs': Records, h: FieldHome)
    requires rs <= rs' && ScopeRef(rs, h.scopeId, h.scope)
    ensures ScopeRef(rs', h.scopeId, h.scope)
  {
  }

  lemma {:induction false} SpansOfSkips(k: nat)
    requires k <= 17
    ensures Spans(OVERLAPPING, 0, 0) == Spans(OVERLAPPING, 5 * k, k * SKIP)
  {
    hide EntryAt, Skips;
    if k > 0 {
      SpansOfSkips(k - 1);
      var c := 5 * (k - 1);
      assert OVERLAPPING[c..c + 5] == Skips(17)[c..c + 5];
      SkipRead(OVERLAPPING, c);
    }
  }

  lemma SpansOfOverlapping()
    ensures Spans(OVERLAPPING, 0, 0)
            == Ok([Span([0x41, 0x41, 0x41, 0x41], 17 * SKIP, 8), Span([0x42, 0x42, 0x42, 0x42], 17 * SKIP + 8, 8)])
  {
    hide EntryAt, Skips;
    SpansOfSkips(17);
    assert OVERLAPPING[85..90] == TWO_FIELDS[..5];
    assert OVERLAPPING[90..95] == TWO_FIELDS[5..];
    WidthRead(OVERLAPPING, 85, 0x41);
    WidthRead(OVERLAPPING, 90, 0x42);
    var a, b := Span(OVERLAPPING[85..89], 17 * SKIP, 8), Span(OVERLAPPING[90..94], 17 * SKIP + 8, 8);
    assert Spans(OVERLAPPING, 95, 17 * SKIP + 16) == Ok([]);
    assert [b] + [] == [b];
    assert Spans(OVERLAPPING, 90, 17 * SKIP + 8) == Ok([b]);
    assert [a] + [b] == [a, b];
  }

  /** A field list whose skips pass the 32-bit range puts two of its fields on the same bits. */
  lemma FieldsCanOverlap(plan: Plan)
    requires plan.capacity >= 3
    ensures Sound(plan, [ROOT_RECORD])
    ensures var r := FieldEntries(plan, [ROOT_RECORD], OVERLAPPING, 0, FieldHome([], 0, None, 0), 0);
            && r.Ok? && |r.value| == 3 && r.value[1].payload.FieldPayload? && r.value[2].payload.FieldPayload?
            && r.value[1].path == [[0x41, 0x41, 0x41, 0x41]] && r.value[2].path == [[0x42, 0x42, 0x42, 0x42]]
            && !DisjointRecords(r.value[1], r.value[2])
  {
    hide FieldEntries, Spans, Skips, EntryAt;
    var h, rs := FieldHome([], 0, None, 0), [ROOT_RECORD];
    assert Placed(rs, 0);
    SkipsRead(plan, rs, h, 17);
    TwoFieldsAtTheTop(plan, rs, h);
    SpansOfOverlapping();
    FieldsOfOneListDisjoint(plan, rs, OVERLAPPING, 0, h, 0, 1);
    var r, spans := FieldEntries(plan, rs, OVERLAPPING, 0, h, 0), Spans(OVERLAPPING, 0, 0).value;
    assert LaidAt(r.value[1 + 0], spans[0], h) && LaidAt(r.value[1 + 1], spans[1], h);
  }

  /** The front of a packaged object whose opcode takes `op` bytes: its package length and its name,
      with the offset past the name and the offset where the package ends. */
  datatype Header = Header(pkg: PkgLength, name: EncodedName, after: nat, end: nat)
  {
    predicate Follows(bytes: seq<byte>, op: nat) {
      && pkg.encoded >= 1 && op + pkg.encoded <= end == op + pkg.value <= |bytes|
      && name.consumed >= 1 && op < after == op + pkg.encoded + name.consumed <= end
    }
  }

  function PackageHeader(bytes: seq<byte>, op: nat): (r: Result<Header>)
    requires op <= |bytes|
    ensures r.Ok? ==> r.value.Follows(bytes, op)
  {
    var pkg :- ParsePkg(bytes[op..]);
    var end := op + pkg.value;
    if end > |bytes| then Err(Truncated)
    else if op + pkg.encoded > end then Err(Fault)
    else
      var name :- ParseName(bytes[op + pkg.encoded..end]);
      Ok(Header(pkg, name, op + pkg.encoded + name.consumed, end))
  }

  lemma HeaderParts(bytes: seq<byte>, op: nat)
    requires op <= |bytes| && PackageHeader(bytes, op).Ok?
    ensures var head := PackageHeader(bytes, op).value;
            && ParsePkg(bytes[op..]) == Ok(head.pkg)
            && ParseName(bytes[op + head.pkg.encoded..head.end]) == Ok(head.name)
  {
    hide ParsePkg, ParseName;
  }

  function FieldOp(plan: Plan, rs: Records, p: Place, bytes: seq<byte>): (r: Result<Loaded>)
    requires Ready(plan, rs, p, bytes) && |bytes| >= 2
    ensures r.Ok? ==> Kept(plan, rs, p, bytes, r.value) && r.value.consumed > 0
  {
    var head :- PackageHeader(bytes, 2);
    var path :- Resolved(p.scope, head.name);
    if head.after >= head.end then Err(Truncated)
    else
      var h := FieldHome(p.scope, p.scopeId, Find(rs, path), bytes[head.after]);
      var rs' :- FieldEntries(plan, rs, bytes[..head.end], head.after + 1, h, 0);
      LeafKept(plan, rs, p, bytes, rs', head.end);
      Ok(Loaded(rs', head.end))
  }

  function IndexFieldOp(plan: Plan, rs: Records, p: Place, bytes: seq<byte>): (r: Result<Loaded>)
    requires Ready(plan, rs, p, bytes) && |bytes| >= 2
    ensures r.Ok? ==> Kept(plan, rs, p, bytes, r.value) && r.value.consumed > 0
  {
    var head :- PackageHeader(bytes, 2);
    var data :- ParseName(bytes[head.after..head.end]);
    var flags := head.after + data.consumed;
    if flags >= head.end then Err(Truncated)
    else
      var h := FieldHome(p.scope, p.scopeId, None, bytes[flags]);
      var rs' :- FieldEntries(plan, rs, bytes[..head.end], flags + 1, h, 0);
      LeafKept(plan, rs, p, bytes, rs', head.end);
      Ok(Loaded(rs', head.end))
  }

  /** A Field object lays its fields out in its region, an IndexField in no region: each field is declared
      in the current scope, with the flags of the list. */
  lemma FieldOpLaysOut(plan: Plan, rs: Records, p: Place, bytes: seq<byte>)
    requires Ready(plan, rs, p, bytes) && |bytes| >= 2 && FieldOp(plan, rs, p, bytes).Ok?
    ensures PackageHeader(bytes, 2).Ok?
    ensures var head := PackageHeader(bytes, 2).value;
            && Resolved(p.scope, head.name).Ok? && head.after < head.end
            && FieldOp(plan, rs, p, bytes).value.consumed == head.end
            && LaysOut(rs, FieldOp(plan, rs, p, bytes).value.records, bytes[..head.end], head.after + 1,
                       FieldHome(p.scope, p.scopeId, Find(rs, Resolved(p.scope, head.name).value), bytes[head.after]))
  {
    hide PackageHeader, Find, Resolved, FieldEntries, Spans, Sound, Below, Shows;
    var head := PackageHeader(bytes, 2).value;
    var h := FieldHome(p.scope, p.scopeId, Find(rs, Resolved(p.scope, head.name).value), bytes[head.after]);
    FieldsLaidOut(plan, rs, bytes[..head.end], head.after + 1, h, 0);
  }

  lemma IndexFieldOpLaysOut(plan: Plan, rs: Records, p: Place, bytes: seq<byte>)
    requires Ready(plan, rs, p, bytes) && |bytes| >= 2 && IndexFieldOp(plan, rs, p, bytes).Ok?
    ensures PackageHeader(bytes, 2).Ok?
    ensures var head := PackageHeader(bytes, 2).value;
            && ParseName(bytes[head.after..head.end]).Ok?
            && IndexFieldOp(plan, rs, p, bytes).value.consumed == head.end
            && var flags := head.after + ParseName(bytes[head.after..head.end]).value.consumed;
               flags < head.end
               && LaysOut(rs, IndexFieldOp(plan, rs, p, bytes).value.records, bytes[..head.end], flags + 1,
                          FieldHome(p.scope, p.scopeId, None, bytes[flags]))
  {
    hide PackageHeader, ParseName, FieldEntries, Spans, Sound, Below, Shows;
    var head := PackageHeader(bytes, 2).value;
    var flags := head.after + ParseName(bytes[head.after..head.end]).value.consumed;
    FieldsLaidOut(plan, rs, bytes[..head.end], flags + 1, FieldHome(p.scope, p.scopeId, None, bytes[flags]), 0);
  }

  // ---- Methods ----

  /** Methods are inserted without a duplicate check; the body is recorded, not walked. */
  function MethodOp(plan: Plan, rs: Records, p: Place, bytes: seq<byte>): (r: Result<Loaded>)
    requires Ready(plan, rs, p, bytes) && bytes != [] && bytes[0] == 0x14
    ensures r.Ok? ==> Kept(plan, rs, p, bytes, r.value) && r.value.consumed > 0
    ensures r.Ok? ==> PackageHeader(bytes, 1).Ok? && Resolved(p.scope, PackageHeader(bytes, 1).value.name).Ok?
                      && Adds(rs, r.value.records, Method, Resolved(p.scope, PackageHeader(bytes, 1).value.name).value)
  {
    var head :- PackageHeader(bytes, 1);
    var path :- Resolved(p.scope, head.name);
    var above :- EnsureScope(plan, rs, Home(path));
    if head.after >= head.end then Err(Truncated)
    else
      var parent, info := IdOf(above, Home(path)), MethodHere(p, bytes, head, |above|, path);
      MethodKept(plan, rs, above, p, bytes, head, path);
      var rs' :- Insert(plan, above, parent, Method, path, Some(info.body), MethodPayload(info));
      Ok(Loaded(rs', head.end))
  }

  /** The method whose flags byte follows its name; its body is the rest of the package. */
  function MethodHere(p: Place, bytes: seq<byte>, head: Header, id: nat, path: Path): MethodInfo
    requires head.after < head.end <= |bytes|
  {
    var flags := bytes[head.after];
    MethodInfo(id, flags % 8, flags / 8 % 2 == 1, flags / 16, Classify(path),
               Location(p.block, p.at + head.after + 1, head.end - (head.after + 1)))
  }

  lemma MethodKept(plan: Plan, rs: Records, above: Records, p: Place, bytes: seq<byte>, head: Header, path: Path)
    requires Ready(plan, rs, p, bytes) && Extends(plan, rs, above) && NoNewMethods(rs, above)
    requires bytes != [] && bytes[0] == 0x14 && PackageHeader(bytes, 1) == Ok(head) && head.after < head.end
    requires Find(above, Home(path)).Some? && ScopeRef(above, IdOf(above, Home(path)), Home(path))
    ensures var parent, info := IdOf(above, Home(path)), MethodHere(p, bytes, head, |above|, path);
            Kept(plan, rs, p, bytes,
                 Loaded(above + [Record(|above|, Some(parent), Method, path, Some(info.body), MethodPayload(info))],
                        head.end))
  {
    hide ParseName, ParsePkg, Classify, Kept, Find, Ready, Extends, NoNewMethods, ScopeRef, MethodTail;
    var parent, info := IdOf(above, Home(path)), MethodHere(p, bytes, head, |above|, path);
    var front := MethodHead(p.at, head.pkg, head.name);
    HeaderParts(bytes, 1);
    assert info.body.End() == front.End() && info.body.offset == front.BodyStart();
    MethodTailHere(plan, rs, p, bytes, front, info.body);
    InsertMethodKeeps(plan, rs, above, p, bytes, parent, path, info, head.end, front);
  }

  lemma MethodTailHere(plan: Plan, rs: Records, p: Place, bytes: seq<byte>, head: MethodHead, body: Location)
    requires Ready(plan, rs, p, bytes) && bytes != [] && bytes[0] == 0x14 && head.start == p.at
    requires ParsePkg(bytes[1..]) == Ok(head.pkg) && head.pkg.encoded <= head.pkg.value < |bytes|
    requires ParseName(bytes[1 + head.pkg.encoded..1 + head.pkg.value]) == Ok(head.name)
    requires body.block == p.block && body.offset == head.BodyStart() && body.End() == head.End()
    ensures MethodTail(plan.blocks, body, head)
  {
    hide Sound, Below, ScopeRef, ParseName, ParsePkg;
    var code := plan.blocks[p.block];
    SliceOfSlice(code, p.at, bytes, 1, |bytes|);
    PkgPrefix(code[p.at + 1..], bytes[1..]);
    SliceOfSlice(code, p.at, bytes, 1 + head.pkg.encoded, 1 + head.pkg.value);
    assert code[p.at] == code[p.at..p.at + |bytes|][0];
  }

  lemma SliceOfSlice(code: seq<byte>, at: nat, bytes: seq<byte>, from: nat, to: nat)
    requires at + |bytes| <= |code| && code[at..at + |bytes|] == bytes && from <= to <= |bytes|
    ensures code[at + from..at + to] == bytes[from..to]
  {
    forall k | from <= k < to ensures code[at + k] == bytes[k] {
      assert code[at..at + |bytes|][k] == bytes[k];
    }
  }

  /** A package length reads the same from a longer slice. */
  lemma PkgPrefix(long: seq<byte>, short: seq<byte>)
    requires short <= long && ParsePkg(short).Ok?
    ensures ParsePkg(long) == ParsePkg(short)
  {
    var follow := short[0] / 64;
    assert long[1..follow + 1] == short[1..follow + 1];
  }

  lemma InsertMethodKeeps(plan: Plan, rs: Records, above: Records, p: Place, bytes: seq<byte>, parent: nat, path: Path,
                          info: MethodInfo, end: nat, head: MethodHead)
    requires Ready(plan, rs, p, bytes) && Extends(plan, rs, above) && NoNewMethods(rs, above)
    requires ScopeRef(above, parent, Home(path))
    requires info.node == |above| && info.kind == Classify(path) && MethodTail(plan.blocks, info.body, head)
    requires info.body.block == p.block && p.at <= info.body.offset && info.body.End() == p.at + end && end <= |bytes|
    ensures var rs' := above + [Record(|above|, Some(parent), Method, path, Some(info.body), MethodPayload(info))];
            Kept(plan, rs, p, bytes, Loaded(rs', end))
  {
    var r := Record(|above|, Some(parent), Method, path, Some(info.body), MethodPayload(info));
    var rs' := above + [r];
    InsertKeepsTree(above, parent, Method, path, Some(info.body), MethodPayload(info));
    forall i | 0 <= i < |rs'| ensures MethodOk(plan.blocks, rs'[i]) {
      if i < |above| { assert MethodOk(plan.blocks, above[i]); }
    }
    forall i, j | 0 <= i < j < |rs'| ensures BodiesApart(rs'[i], rs'[j]) {
      if j < |above| {
        assert BodiesApart(above[i], above[j]);
      } else if i < |rs| {
        assert above[i] == rs[i];
      }
    }
    forall i | 0 <= i < |rs'| && IsMethod(rs'[i]) && rs'[i].payload.info.body.block == p.block
      ensures rs'[i].payload.info.body.End() <= p.at + end
    {
      if i < |rs| { assert above[i] == rs[i]; }
    }
  }

  // ---- Nested objects and the walk ----

  /** A walk over a whole byte range keeps the table sound and leaves every body inside it. */
  ghost predicate Walked(plan: Plan, rs: Records, p: Place, bytes: seq<byte>, rs': Records) {
    Extends(plan, rs, rs') && FromBlock(rs, rs', p.block) && Below(rs', p.block, p.at + |bytes|)
  }

  lemma NestedKept(plan: Plan, rs: Records, mid: Records, p: Place, bytes: seq<byte>, from: nat, to: nat, rs': Records,
                   consumed: nat, scope: Path, scopeId: nat)
    requires Ready(plan, rs, p, bytes) && Extends(plan, rs, mid) && NoNewMethods(rs, mid)
    requires from <= to <= |bytes| && to <= consumed
    requires Walked(plan, mid, Place(p.block, p.at + from, scope, scopeId), bytes[from..to], rs')
    ensures Kept(plan, rs, p, bytes, Loaded(rs', consumed))
  {
  }

  lemma NestedReady(plan: Plan, rs: Records, mid: Records, p: Place, bytes: seq<byte>, from: nat, to: nat, scope: Path,
                    scopeId: nat)
    requires Ready(plan, rs, p, bytes) && Extends(plan, rs, mid) && NoNewMethods(rs, mid)
    requires from <= to <= |bytes| && ScopeRef(mid, scopeId, scope)
    ensures Ready(plan, mid, Place(p.block, p.at + from, scope, scopeId), bytes[from..to])
  {
    SliceOfSlice(plan.blocks[p.block], p.at, bytes, from, to);
    forall i | 0 <= i < |mid| && IsMethod(mid[i]) && mid[i].payload.info.body.block == p.block
      ensures mid[i].payload.info.body.End() <= p.at + from
    {
      if i < |rs| { assert mid[i] == rs[i]; }
    }
  }

  function ScopeOp(plan: Plan, rs: Records, p: Place, bytes: seq<byte>): (r: Result<Loaded>)
    requires Ready(plan, rs, p, bytes) && bytes != []
    ensures r.Ok? ==> Kept(plan, rs, p, bytes, r.value) && r.value.consumed > 0
    decreases |bytes|, 0
  {
    var head :- PackageHeader(bytes, 1);
    var path :- Resolved(p.scope, head.name);
    var mid :- EnsureScope(plan, rs, path);
    var from, end := head.after, head.end;
    NestedReady(plan, rs, mid, p, bytes, from, end, path, IdOf(mid, path));
    var rs' :- Walk(plan, mid, Place(p.block, p.at + from, path, IdOf(mid, path)), bytes[from..end]);
    NestedKept(plan, rs, mid, p, bytes, from, end, rs', end, path, IdOf(mid, path));
    Ok(Loaded(rs', end))
  }

  /** Device, Processor, PowerResource and ThermalZone. */
  function ScopedObjectOp(plan: Plan, rs: Records, p: Place, bytes: seq<byte>, kind: ObjectKind, fixed: nat)
    : (r: Result<Loaded>)
    requires Ready(plan, rs, p, bytes) && |bytes| >= 2 && ScopeCapable(kind)
    ensures r.Ok? ==> Kept(plan, rs, p, bytes, r.value) && r.value.consumed > 0
    decreases |bytes|, 0
  {
    var head :- PackageHeader(bytes, 2);
    var path :- Resolved(p.scope, head.name);
    var above :- EnsureScope(plan, rs, Home(path));
    if head.after + fixed > head.end then Err(Fault)
    else ScopedBody(plan, rs, p, bytes, kind, head.after + fixed, head.end, path)
  }

  /** The object is declared, and then what is left of its package is walked inside it. */
  function ScopedBody(plan: Plan, rs: Records, p: Place, bytes: seq<byte>, kind: ObjectKind, from: nat, end: nat, path: Path)
    : (r: Result<Loaded>)
    requires Ready(plan, rs, p, bytes) && ScopeCapable(kind) && 0 < from <= end <= |bytes|
    ensures r.Ok? ==> Kept(plan, rs, p, bytes, r.value) && r.value.consumed > 0
    decreases |bytes|, -1
  {
    var mid :- Declare(plan, rs, path, kind, Some(Location(p.block, p.at + from, end - from)), NoPayload);
    var id := |mid| - 1;
    NestedReady(plan, rs, mid, p, bytes, from, end, path, id);
    var rs' :- Walk(plan, mid, Place(p.block, p.at + from, path, id), bytes[from..end]);
    NestedKept(plan, rs, mid, p, bytes, from, end, rs', end, path, id);
    Ok(Loaded(rs', end))
  }

  /** Such an object is added first, as a record whose body is what its walk reads. */
  lemma ScopedObjectBegins(plan: Plan, rs: Records, p: Place, bytes: seq<byte>, kind: ObjectKind, fixed: nat)
    requires Ready(plan, rs, p, bytes) && |bytes| >= 2 && ScopeCapable(kind)
    requires ScopedObjectOp(plan, rs, p, bytes, kind, fixed).Ok?
    ensures PackageHeader(bytes, 2).Ok?
    ensures var head := PackageHeader(bytes, 2).value;
            && Resolved(p.scope, head.name).Ok? && head.after + fixed <= head.end
            && Begins(rs, ScopedObjectOp(plan, rs, p, bytes, kind, fixed).value.records, kind,
                      Resolved(p.scope, head.name).value,
                      Location(p.block, p.at + head.after + fixed, head.end - (head.after + fixed)))
  {
    hide PackageHeader, Resolved, EnsureScope, Walk, Ready, ScopedBody;
    var head := PackageHeader(bytes, 2).value;
    ScopedBodyBegins(plan, rs, p, bytes, kind, head.after + fixed, head.end, Resolved(p.scope, head.name).value);
  }

  lemma ScopedBodyBegins(plan: Plan, rs: Records, p: Place, bytes: seq<byte>, kind: ObjectKind, from: nat, end: nat,
                         path: Path)
    requires Ready(plan, rs, p, bytes) && ScopeCapable(kind) && 0 < from <= end <= |bytes|
    requires ScopedBody(plan, rs, p, bytes, kind, from, end, path).Ok?
    ensures Begins(rs, ScopedBody(plan, rs, p, bytes, kind, from, end, path).value.records, kind, path,
                   Location(p.block, p.at + from, end - from))
  {
    hide Declare, Walk, Sound, Below, Shows, Find, Adds;
    var mid := Declare(plan, rs, path, kind, Some(Location(p.block, p.at + from, end - from)), NoPayload).value;
    var rs' := ScopedBody(plan, rs, p, bytes, kind, from, end, path).value.records;
    assert rs'[..|mid|] == mid;
    AddsSomething(rs, mid, kind, path);
  }

  lemma AddsSomething(rs: Records, rs': Records, kind: ObjectKind, path: Path)
    requires Adds(rs, rs', kind, path)
    ensures |rs| < |rs'|
  {
  }

  /** If and an Else that follows it: the branch is chosen while loading. */
  function IfOp(plan: Plan, rs: Records, p: Place, bytes: seq<byte>): (r: Result<Loaded>)
    requires Ready(plan, rs, p, bytes) && bytes != []
    ensures r.Ok? ==> Kept(plan, rs, p, bytes, r.value) && r.value.consumed > 0
    decreases |bytes|, 0
  {
    var pkg :- ParsePkg(bytes[1..]);
    var end := 1 + pkg.value;
    if end > |bytes| then Err(Truncated)
    else if 1 + pkg.encoded > end then Err(Fault)
    else
      var condition :- LoadTimeValue(rs, bytes[1 + pkg.encoded..end], p.scope);
      var from := 1 + pkg.encoded + condition.consumed;
      NestedReady(plan, rs, rs, p, bytes, from, end, p.scope, p.scopeId);
      var taken :- if condition.value != 0
                   then Walk(plan, rs, p.(at := p.at + from), bytes[from..end]) else Ok(rs);
      if end < |bytes| && bytes[end] == 0xA1 then
        var elsePkg :- ParsePkg(bytes[end + 1..]);
        var elseEnd := end + 1 + elsePkg.value;
        if elseEnd > |bytes| then Err(Truncated)
        else if condition.value != 0 then
          NestedKept(plan, rs, rs, p, bytes, from, end, taken, elseEnd, p.scope, p.scopeId);
          Ok(Loaded(taken, elseEnd))
        else if end + 1 + elsePkg.encoded > elseEnd then Err(Fault)
        else
          var elseFrom := end + 1 + elsePkg.encoded;
          NestedReady(plan, rs, rs, p, bytes, elseFrom, elseEnd, p.scope, p.scopeId);
          var rs' :- Walk(plan, rs, p.(at := p.at + elseFrom), bytes[elseFrom..elseEnd]);
          NestedKept(plan, rs, rs, p, bytes, elseFrom, elseEnd, rs', elseEnd, p.scope, p.scopeId);
          Ok(Loaded(rs', elseEnd))
      else if condition.value != 0 then
        NestedKept(plan, rs, rs, p, bytes, from, end, taken, end, p.scope, p.scopeId);
        Ok(Loaded(taken, end))
      else
        LeafKept(plan, rs, p, bytes, rs, end);
        Ok(Loaded(rs, end))
  }

  function ExtOp(plan: Plan, rs: Records, p: Place, bytes: seq<byte>): (r: Result<Loaded>)
    requires Ready(plan, rs, p, bytes) && bytes != []
    ensures r.Ok? ==> Kept(plan, rs, p, bytes, r.value)
    decreases |bytes|, 1
  {
    if |bytes| < 2 then Err(Truncated)
    else match bytes[1]
      case 0x01 => MutexOp(plan, rs, p, bytes)
      case 0x02 => EventOp(plan, rs, p, bytes)
      case 0x13 => CreateFieldOp(plan, rs, p, bytes, 2, 3)
      case 0x80 => OpRegionOp(plan, rs, p, bytes)
      case 0x81 => FieldOp(plan, rs, p, bytes)
      case 0x86 => IndexFieldOp(plan, rs, p, bytes)
      case 0x82 => ScopedObjectOp(plan, rs, p, bytes, Device, 0)
      case 0x83 => ScopedObjectOp(plan, rs, p, bytes, Processor, 6)
      case 0x84 => ScopedObjectOp(plan, rs, p, bytes, PowerResource, 3)
      case 0x85 => ScopedObjectOp(plan, rs, p, bytes, ThermalZone, 0)
      case _ => Err(Unsupported)
  }

  /** One term object of a definition block. */
  function TermObject(plan: Plan, rs: Records, p: Place, bytes: seq<byte>): (r: Result<Loaded>)
    requires Ready(plan, rs, p, bytes) && bytes != []
    ensures r.Ok? ==> Kept(plan, rs, p, bytes, r.value)
    decreases |bytes|, 2
  {
    match bytes[0]
    case 0x06 => AliasOp(plan, rs, p, bytes)
    case 0x08 => NameOp(plan, rs, p, bytes)
    case 0x10 => ScopeOp(plan, rs, p, bytes)
    case 0x14 => MethodOp(plan, rs, p, bytes)
    case 0x15 => ExternalOp(plan, rs, p, bytes)
    case 0xA0 => IfOp(plan, rs, p, bytes)
    case 0x8A => CreateFieldOp(plan, rs, p, bytes, 1, 2)
    case 0x8B => CreateFieldOp(plan, rs, p, bytes, 1, 2)
    case 0x8C => CreateFieldOp(plan, rs, p, bytes, 1, 2)
    case 0x8D => CreateFieldOp(plan, rs, p, bytes, 1, 2)
    case 0x8F => CreateFieldOp(plan, rs, p, bytes, 1, 2)
    case 0x5B => ExtOp(plan, rs, p, bytes)
    case _ => Err(Unsupported)
  }

  /** The term objects of a byte range, one after the other. */
  function Walk(plan: Plan, rs: Records, p: Place, bytes: seq<byte>): (r: Result<Records>)
    requires Ready(plan, rs, p, bytes)
    ensures r.Ok? ==> Walked(plan, rs, p, bytes, r.value)
    decreases |bytes|, 3
  {
    if bytes == [] then Ok(rs)
    else
      var l :- TermObject(plan, rs, p, bytes);
      if l.consumed == 0 then Err(InvalidBytecode)
      else if l.consumed >= |bytes| then Ok(l.records)
      else
        WalkOn(plan, rs, p, bytes, l);
        Walk(plan, l.records, p.(at := p.at + l.consumed), bytes[l.consumed..])
  }

  lemma WalkOn(plan: Plan, rs: Records, p: Place, bytes: seq<byte>, l: Loaded)
    requires Ready(plan, rs, p, bytes) && Kept(plan, rs, p, bytes, l) && 0 < l.consumed < |bytes|
    ensures Ready(plan, l.records, p.(at := p.at + l.consumed), bytes[l.consumed..])
  {
    SliceOfSlice(plan.blocks[p.block], p.at, bytes, l.consumed, |bytes|);
    assert l.records[p.scopeId] == rs[p.scopeId];
  }

  /** The blocks from `b` on, each walked at the root. */
  function LoadBlocks(plan: Plan, rs: Records, b: nat): (r: Result<Records>)
    requires plan.Valid() && Sound(plan, rs) && b <= |plan.blocks|
    requires forall i :: 0 <= i < |rs| && IsMethod(rs[i]) ==> rs[i].payload.info.body.block < b
    ensures r.Ok? ==> Extends(plan, rs, r.value)
    decreases |plan.blocks| - b
  {
    if b == |plan.blocks| then Ok(rs)
    else if b > U16_MAX then Err(Overflow)
    else
      assert Placed(rs, 0);
      var rs' :- Walk(plan, rs, Place(b, 0, [], 0), plan.blocks[b]);
      LoadBlocks(plan, rs', b + 1)
  }

  /** The whole load: the root record, then every block. */
  function LoadAll(plan: Plan): (r: Result<Records>)
    requires plan.Valid()
    ensures r.Ok? ==> Sound(plan, r.value)
  {
    if plan.capacity == 0 then Err(Overflow)
    else
      assert Placed([ROOT_RECORD], 0);
      LoadBlocks(plan, [ROOT_RECORD], 0)
  }
}
