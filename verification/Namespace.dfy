/** The loaded namespace: a flat table of records, and what it means for it to be a tree. */
module Namespace {
  import opened Wrappers
  import opened Bits
  import opened Names
  import opened Fields

  datatype ObjectKind =
    | Scope | Device | Method | Name | OpRegion | Field | BufferField | Mutex | Event
    | Processor | ThermalZone | PowerResource | Alias | External

  predicate ScopeCapable(kind: ObjectKind) {
    kind.Scope? || kind.Device? || kind.Processor? || kind.PowerResource? || kind.ThermalZone?
  }

  /** A stretch of bytecode inside one definition block. */
  datatype Location = Location(block: nat, offset: nat, length: nat)
  {
    function End(): nat { offset + length }
  }

  datatype MethodKind = Ordinary | Initialize | Status | RegionAvailability | NotificationQuery | EventHandler

  datatype MethodInfo = MethodInfo(node: nat, argCount: nat, serialized: bool, syncLevel: nat, kind: MethodKind,
                                   body: Location)

  datatype RegionInfo = RegionInfo(node: nat, space: Space, offset: Option<u64>, length: Option<u64>)

  datatype AccessKind = AnyAccess | ByteAccess | WordAccess | DWordAccess | QWordAccess | BufferAccess

  datatype FieldInfo = FieldInfo(node: nat, region: Option<nat>, bitOffset: u32, bitWidth: u32, access: AccessKind,
                                 update: UpdateRule)

  datatype Payload =
    | NoPayload
    | IntegerPayload(value: u64)
    | MethodPayload(info: MethodInfo)
    | RegionPayload(region: RegionInfo)
    | FieldPayload(field: FieldInfo)

  datatype Record = Record(id: nat, parent: Option<nat>, kind: ObjectKind, path: Path, body: Option<Location>,
                           payload: Payload)

  type Records = seq<Record>

  const ROOT_RECORD := Record(0, None, Scope, [], None, NoPayload)

  /** The first record with a path, as both the loader and the evaluator search for it. */
  function Find(rs: Records, path: Path): (r: Option<nat>)
    ensures r.Some? ==> r.value < |rs| && rs[r.value].path == path
                        && forall j :: 0 <= j < r.value ==> rs[j].path != path
    ensures r.None? ==> forall j :: 0 <= j < |rs| ==> rs[j].path != path
  {
    if rs == [] then None
    else match Find(rs[..|rs| - 1], path)
      case Some(i) => Some(i)
      case None => if rs[|rs| - 1].path == path then Some(|rs| - 1) else None
  }

  /** The first record with an id. */
  function FindId(rs: Records, id: nat): (r: Option<nat>)
    ensures r.Some? ==> r.value < |rs| && rs[r.value].id == id
                        && forall j :: 0 <= j < r.value ==> rs[j].id != id
    ensures r.None? ==> forall j :: 0 <= j < |rs| ==> rs[j].id != id
  {
    if rs == [] then None
    else match FindId(rs[..|rs| - 1], id)
      case Some(i) => Some(i)
      case None => if rs[|rs| - 1].id == id then Some(|rs| - 1) else None
  }

  function Paths(rs: Records): set<Path> {
    set r | r in rs :: r.path
  }

  /** The bytes at a location, if the location lies inside its block. */
  function CodeBytes(blocks: seq<seq<byte>>, location: Location): Option<seq<byte>> {
    if location.block < |blocks| && location.End() <= |blocks[location.block]|
    then Some(blocks[location.block][location.offset..location.End()])
    else None
  }

  // ---- Method classification ----

  predicate HexDigit(b: byte) {
    0x30 <= b <= 0x39 || 0x41 <= b <= 0x46 || 0x61 <= b <= 0x66
  }

  function ClassifySegment(s: NameSeg): MethodKind {
    if s == [0x5F, 0x49, 0x4E, 0x49] then Initialize
    else if s == [0x5F, 0x53, 0x54, 0x41] then Status
    else if s == [0x5F, 0x52, 0x45, 0x47] then RegionAvailability
    else if s[0] == 0x5F && s[1] == 0x51 then NotificationQuery
    else if s[0] == 0x5F && (s[1] == 0x4C || s[1] == 0x45) && HexDigit(s[2]) && HexDigit(s[3]) then EventHandler
    else Ordinary
  }

  function Classify(path: Path): MethodKind {
    if path == [] then Ordinary else ClassifySegment(path[|path| - 1])
  }

  // ---- What every load keeps ----

  /** Kinds that are inserted only when their path is new. */
  predicate CheckedKind(kind: ObjectKind) {
    !kind.Method? && !kind.OpRegion? && !kind.Field?
  }

  /** Record `i` carries id `i`, hangs below an earlier scope-capable record whose path is its own
      without the last segment, and its path is new unless its kind is one that is never checked. */
  predicate Placed(rs: Records, i: nat)
    requires i < |rs|
  {
    && rs[i].id == i
    && (i == 0 ==> rs[i] == ROOT_RECORD)
    && (i > 0 ==>
          && rs[i].parent.Some? && rs[i].parent.value < i
          && ScopeCapable(rs[rs[i].parent.value].kind)
          && rs[rs[i].parent.value].path == (if rs[i].path == [] then [] else Parent(rs[i].path)))
    && (CheckedKind(rs[i].kind) ==> forall j :: 0 <= j < i ==> rs[j].path != rs[i].path)
  }

  ghost predicate Tree(rs: Records) {
    |rs| > 0 && forall i :: 0 <= i < |rs| ==> Placed(rs, i)
  }

  /** The header of a MethodOp package: where it starts, its package length and its name. */
  datatype MethodHead = MethodHead(start: nat, pkg: PkgLength, name: EncodedName)
  {
    function NameStart(): nat { start + 1 + pkg.encoded }

    /** Past the opcode, the package length, the name and the flags byte. */
    function BodyStart(): nat { NameStart() + name.consumed + 1 }

    function End(): nat { start + 1 + pkg.value }
  }

  /** The location is the tail of a MethodOp package: everything after its name and flags byte. */
  predicate MethodTail(blocks: seq<seq<byte>>, body: Location, head: MethodHead) {
    && body.block < |blocks|
    && head.NameStart() <= head.End() <= |blocks[body.block]|
    && blocks[body.block][head.start] == 0x14
    && ParsePkg(blocks[body.block][head.start + 1..]) == Ok(head.pkg)
    && ParseName(blocks[body.block][head.NameStart()..head.End()]) == Ok(head.name)
    && body.offset == head.BodyStart()
    && body.End() == head.End()
  }

  /** A Method record says where its code is, and that place is the tail of a MethodOp package. */
  ghost predicate MethodOk(blocks: seq<seq<byte>>, r: Record) {
    && (r.payload.MethodPayload? <==> r.kind == Method)
    && (r.payload.MethodPayload? ==>
          && r.payload.info.node == r.id
          && r.body == Some(r.payload.info.body)
          && r.payload.info.kind == Classify(r.path)
          && exists head :: MethodTail(blocks, r.payload.info.body, head))
  }

  predicate IsMethod(r: Record) { r.payload.MethodPayload? }

  /** Method bodies of one block come in file order and never overlap. */
  predicate BodiesApart(a: Record, b: Record) {
    IsMethod(a) && IsMethod(b) && a.payload.info.body.block == b.payload.info.body.block ==>
      a.payload.info.body.End() <= b.payload.info.body.offset
  }

  ghost predicate Methods(blocks: seq<seq<byte>>, rs: Records) {
    && (forall i :: 0 <= i < |rs| ==> MethodOk(blocks, rs[i]))
    && (forall i, j :: 0 <= i < j < |rs| ==> BodiesApart(rs[i], rs[j]))
  }

  /** No two scope-capable records share a path. */
  lemma ScopesAreUnique(rs: Records, i: nat, j: nat)
    requires Tree(rs) && i < |rs| && j < |rs|
    requires ScopeCapable(rs[i].kind) && ScopeCapable(rs[j].kind) && rs[i].path == rs[j].path
    ensures i == j
  {
    assert Placed(rs, i) && Placed(rs, j);
  }

  /** Following parents from any record reaches the root, one path segment at a time: the ancestor
      `n` levels up has the record's path without its last `n` segments. */
  lemma {:induction false} AncestorsArePrefixes(rs: Records, i: nat, n: nat) returns (a: nat)
    requires Tree(rs) && i < |rs| && n <= |rs[i].path|
    ensures a < |rs| && (a == i || ScopeCapable(rs[a].kind)) && rs[a].path == rs[i].path[..|rs[i].path| - n]
    decreases n
  {
    if n == 0 {
      a := i;
    } else {
      assert Placed(rs, i);
      var p := rs[i].parent.value;
      a := AncestorsArePrefixes(rs, p, n - 1);
    }
  }

  /** Every loaded method's code can be fetched, and it is the tail of its package. */
  lemma CodeBytesOfMethod(blocks: seq<seq<byte>>, rs: Records, i: nat)
    requires Methods(blocks, rs) && i < |rs| && IsMethod(rs[i])
    ensures CodeBytes(blocks, rs[i].payload.info.body).Some?
    ensures exists head :: MethodTail(blocks, rs[i].payload.info.body, head)
  {
    assert MethodOk(blocks, rs[i]);
    var head :| MethodTail(blocks, rs[i].payload.info.body, head);
  }
}
