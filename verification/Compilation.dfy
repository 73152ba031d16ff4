/** A program from source to result: declarations, with Devices and Scopes nested to any depth the paths allow, are
    spelled in one definition block, the loader makes a namespace of them, and the evaluator computes what the
    source of a method means there. */
module Compilation {
  import opened Wrappers
  import opened Bits
  import opened Names
  import opened Fields
  import opened Namespace
  import opened Values
  import opened Programs
  import opened Evaluator
  import opened Evaluation
  import RuntimeState
  import LoaderTerms
  import Loader
  import LoaderMachine

  /** A declaration. `size` is the number of bytes its package length takes. A nested one is a Device or a new
      Scope with declarations of its own. */
  datatype Decl =
    | IntegerDecl(name: NameSeg, value: seq<byte>)
    | MutexDecl(name: NameSeg, level: byte)
    | RegionDecl(name: NameSeg, space: byte, base: seq<byte>, length: seq<byte>)
    | FieldDecl(name: NameSeg, size: nat, region: NameSeg, flags: byte, offset: nat, width: nat)
    | MethodDecl(name: NameSeg, size: nat, flags: byte, code: seq<byte>)
    | NestDecl(name: NameSeg, size: nat, device: bool, inner: Decls)

  datatype Decls = NoDecls | More(first: Decl, rest: Decls)

  predicate DeclOk(d: Decl)
    decreases d, 1
  {
    match d
    case IntegerDecl(_, value) => LiteralSize(|value|)
    case MutexDecl(_, _) => true
    case RegionDecl(_, _, base, length) => LiteralSize(|base|) && LiteralSize(|length|)
    case FieldDecl(_, size, _, _, offset, width) =>
      offset < PkgBound(4) && width < PkgBound(4) && PackageFits(size, Payload(d))
    case MethodDecl(_, size, _, _) => PackageFits(size, Payload(d))
    case NestDecl(_, size, _, inner) => AllOk(inner) && PackageFits(size, Payload(d))
  }

  predicate AllOk(decls: Decls)
    decreases decls, 0
  {
    decls.More? ==> DeclOk(decls.first) && AllOk(decls.rest)
  }

  /** What the package of a declaration holds. */
  function Payload(d: Decl): seq<byte>
    requires d.FieldDecl? ==> d.offset < PkgBound(4) && d.width < PkgBound(4)
    requires d.NestDecl? ==> AllOk(d.inner)
    decreases d, 0
  {
    match d
    case FieldDecl(name, _, region, flags, offset, width) =>
      region + ([flags] + ([0x00] + EncodePkg(offset, 4) + (name + EncodePkg(width, 4))))
    case MethodDecl(name, _, flags, code) => name + ([flags] + code)
    case NestDecl(name, _, _, inner) => name + Code(inner)
    case _ => []
  }

  function Spelled(d: Decl): (r: seq<byte>)
    requires DeclOk(d)
    ensures r != []
    decreases d, 2
  {
    match d
    case IntegerDecl(name, value) => [0x08] + (name + SpellLiteral(value))
    case MutexDecl(name, level) => [0x5B, 0x01] + (name + [level])
    case RegionDecl(name, space, base, length) =>
      [0x5B, 0x80] + (name + ([space] + (SpellLiteral(base) + SpellLiteral(length))))
    case FieldDecl(_, size, _, _, _, _) => [0x5B, 0x81] + SpellPackage(size, Payload(d))
    case MethodDecl(_, size, _, _) => [0x14] + SpellPackage(size, Payload(d))
    case NestDecl(_, size, device, _) => NestLead(device) + SpellPackage(size, Payload(d))
  }

  function NestLead(device: bool): seq<byte> { if device then [0x5B, 0x82] else [0x10] }

  /** The bytes of the declarations, one after the other: the definition block. */
  function Code(decls: Decls): seq<byte>
    requires AllOk(decls)
    decreases decls, 1
  {
    if decls.NoDecls? then [] else Spelled(decls.first) + Code(decls.rest)
  }

  function SpellLiteral(value: seq<byte>): (r: seq<byte>)
    requires LiteralSize(|value|)
  {
    [LiteralByte(|value|)] + value
  }

  /** Declarations of one scope have different names. */
  predicate NamesDiffer(decls: Decls) {
    decls.More? ==>
      && Differs(decls.first.name, decls.rest) && NamesDiffer(decls.rest)
      && (decls.first.NestDecl? ==> NamesDiffer(decls.first.inner))
  }

  predicate Differs(name: NameSeg, decls: Decls) {
    decls.More? ==> decls.first.name != name && Differs(name, decls.rest)
  }

  /** Paths stay within the sixteen segments that there is room for. */
  predicate Shallow(decls: Decls, depth: nat) {
    decls.More? ==> ShallowDecl(decls.first, depth) && Shallow(decls.rest, depth)
  }

  predicate ShallowDecl(d: Decl, depth: nat) {
    depth < MAX_SEGMENTS && (d.NestDecl? ==> Shallow(d.inner, depth + 1))
  }

  /** A declaration and the scope it stands in. */
  datatype Entry = Entry(scope: Path, decl: Decl)

  /** All declarations, the nested ones after the one they are nested in. */
  function Flat(decls: Decls, scope: Path): seq<Entry>
    requires Shallow(decls, |scope|)
  {
    if decls.NoDecls? then [] else FlatDecl(decls.first, scope) + Flat(decls.rest, scope)
  }

  function FlatDecl(d: Decl, scope: Path): (r: seq<Entry>)
    requires ShallowDecl(d, |scope|)
    ensures r != []
  {
    [Entry(scope, d)] + (if d.NestDecl? then Flat(d.inner, scope + [d.name]) else [])
  }

  // ---- The table ----

  /** What bits 5 and 6 of a field's flags ask of the bits around it. */
  function RuleOf(flags: byte): UpdateRule {
    if Bit(flags, 5) && !Bit(flags, 6) then WriteAsOnes
    else if Bit(flags, 6) && !Bit(flags, 5) then WriteAsZeros
    else Preserve
  }

  /** Where what is nested in a declaration begins. */
  function Front(d: Decl): nat
    requires d.NestDecl?
  {
    |NestLead(d.device)| + d.size + 4
  }

  /** The record of a declaration, behind the records `rs`, when the loader stands before its first byte. */
  function Recorded(d: Decl, rs: Records, p: Loader.Place): Record
    requires DeclOk(d) && |p.scope| < MAX_SEGMENTS
  {
    var id, path := |rs|, p.scope + [d.name];
    match d
    case IntegerDecl(_, value) =>
      LoaderTerms.LittleEndianWord(value);
      Record(id, Some(p.scopeId), Name, path, Some(Location(p.block, p.at + 5, 1 + |value|)),
             IntegerPayload(LittleEndian(value)))
    case MutexDecl(_, _) => Record(id, Some(p.scopeId), Mutex, path, None, NoPayload)
    case RegionDecl(_, space, base, length) =>
      LoaderTerms.LittleEndianWord(base);
      LoaderTerms.LittleEndianWord(length);
      Record(id, Some(p.scopeId), OpRegion, path, None,
             RegionPayload(RegionInfo(id, Loader.AddressSpace(space), Some(LittleEndian(base)),
                                      Some(LittleEndian(length)))))
    case FieldDecl(_, _, region, flags, offset, width) =>
      Record(id, Some(p.scopeId), Field, path, None,
             FieldPayload(FieldInfo(id, Find(rs, p.scope + [region]), offset, width, Loader.FieldAccess(flags),
                                    RuleOf(flags))))
    case MethodDecl(_, size, flags, code) =>
      var body := Location(p.block, p.at + size + 6, |code|);
      Record(id, Some(p.scopeId), Method, path, Some(body),
             MethodPayload(MethodInfo(id, flags % 8, flags / 8 % 2 == 1, flags / 16, Classify(path), body)))
    case NestDecl(_, _, device, inner) =>
      Record(id, Some(p.scopeId), if device then Device else Scope, path,
             if device then Some(Location(p.block, p.at + Front(d), |Code(inner)|)) else None, NoPayload)
  }

  /** Where the loader stands when it begins what is nested in a declaration. */
  function Within(d: Decl, rs: Records, p: Loader.Place): Loader.Place
    requires d.NestDecl? && |p.scope| < MAX_SEGMENTS
  {
    Loader.Place(p.block, p.at + Front(d), p.scope + [d.name], |rs|)
  }

  /** The table after a declaration and all that is nested in it. */
  function After(rs: Records, d: Decl, p: Loader.Place): Records
    requires DeclOk(d) && ShallowDecl(d, |p.scope|)
    decreases d
  {
    var rs' := rs + [Recorded(d, rs, p)];
    if d.NestDecl? then TableFrom(rs', d.inner, Within(d, rs, p)) else rs'
  }

  function TableFrom(rs: Records, decls: Decls, p: Loader.Place): Records
    requires AllOk(decls) && Shallow(decls, |p.scope|)
    decreases decls
  {
    if decls.NoDecls? then rs
    else TableFrom(After(rs, decls.first, p), decls.rest, p.(at := p.at + |Spelled(decls.first)|))
  }

  const ROOT_PLACE := Loader.Place(0, 0, [], 0)

  function Table(decls: Decls): Records
    requires AllOk(decls) && Shallow(decls, 0)
  {
    TableFrom([ROOT_RECORD], decls, ROOT_PLACE)
  }

  // ---- Reading the parts back ----

  /** The bytes begin with a constant that the loader reads as the number these bytes spell. */
  predicate ReadsAs(bytes: seq<byte>, value: seq<byte>) {
    LittleEndian(value) <= U64_MAX
    && LoaderTerms.TermArg(bytes) == Ok(LoaderTerms.Arg(Some(LittleEndian(value)), 1 + |value|))
  }

  /** A constant is read back as the number it spells. */
  lemma {:induction false} LiteralReadBack(value: seq<byte>, rest: seq<byte>)
    requires LiteralSize(|value|)
    ensures ReadsAs(SpellLiteral(value) + rest, value)
  {
    hide LittleEndian;
    LoaderTerms.LittleEndianWord(value);
    var bytes := SpellLiteral(value) + rest;
    assert bytes[0] == LiteralByte(|value|);
    assert bytes[1..1 + |value|] == value;
  }

  lemma {:induction false} LiteralLength(value: seq<byte>)
    requires LiteralSize(|value|)
    ensures |SpellLiteral(value)| == 1 + |value|
  {
  }

  lemma {:induction false} LiteralFound(value: seq<byte>, bytes: seq<byte>)
    requires LiteralSize(|value|) && SpellLiteral(value) <= bytes
    ensures ReadsAs(bytes, value)
  {
    hide ReadsAs, SpellLiteral;
    LiteralReadBack(value, bytes[|SpellLiteral(value)|..]);
    assert bytes == SpellLiteral(value) + bytes[|SpellLiteral(value)|..];
  }

  lemma {:induction false} IntegerParts(name: NameSeg, value: seq<byte>, bytes: seq<byte>)
    requires LiteralSize(|value|) && [0x08] + (name + SpellLiteral(value)) <= bytes
    ensures |bytes| >= 6 + |value| && |SpellLiteral(value)| == 1 + |value|
    ensures ParseName(bytes[1..]) == Ok(EncodedName(Local, 0, [name], false, 4)) && ReadsAs(bytes[5..], value)
  {
    hide ParseName, ReadsAs, SpellLiteral;
    LiteralLength(value);
    var v := SpellLiteral(value);
    Chop([0x08], name + v, bytes);
    Chop(name, v, bytes[1..]);
    assert bytes[1..][4..] == bytes[5..];
    SegmentFound(name, bytes[1..]);
    LiteralFound(value, bytes[5..]);
  }

  lemma {:induction false} RegionParts(name: NameSeg, space: byte, base: seq<byte>, length: seq<byte>, bytes: seq<byte>)
    requires LiteralSize(|base|) && LiteralSize(|length|)
    requires [0x5B, 0x80] + (name + ([space] + (SpellLiteral(base) + SpellLiteral(length)))) <= bytes
    ensures |bytes| >= 9 + |base| + |length|
    ensures ParseName(bytes[2..]) == Ok(EncodedName(Local, 0, [name], false, 4)) && bytes[6] == space
    ensures ReadsAs(bytes[7..], base) && ReadsAs(bytes[8 + |base|..], length)
  {
    hide ParseName, ReadsAs, SpellLiteral;
    LiteralLength(base);
    LiteralLength(length);
    var b, l := SpellLiteral(base), SpellLiteral(length);
    Chop([0x5B, 0x80], name + ([space] + (b + l)), bytes);
    Chop(name, [space] + (b + l), bytes[2..]);
    Chop([space], b + l, bytes[2..][4..]);
    assert bytes[2..][4..][1..] == bytes[7..];
    Chop(b, l, bytes[7..]);
    assert bytes[7..][|b|..] == bytes[8 + |base|..];
    SegmentFound(name, bytes[2..]);
    LiteralFound(base, bytes[7..]);
    LiteralFound(length, bytes[8 + |base|..]);
  }

  /** The header of a package: its length, then a name. */
  lemma {:induction false} HeaderReadBack(bytes: seq<byte>, op: nat, size: nat, name: NameSeg, tail: seq<byte>)
    requires PackageFits(size, name + tail) && op <= |bytes| && SpellPackage(size, name + tail) <= bytes[op..]
    ensures Loader.PackageHeader(bytes, op)
            == Ok(Loader.Header(PkgLength(size + 4 + |tail|, size), EncodedName(Local, 0, [name], false, 4),
                                op + size + 4, op + size + 4 + |tail|))
    ensures op + size + 4 + |tail| <= |bytes| && bytes[op + size + 4..op + size + 4 + |tail|] == tail
  {
    hide ParseName, ParsePkg, EncodePkg;
    var payload := name + tail;
    var rest := bytes[op..][size..];
    assert bytes[op..] == EncodePkg(size + |payload|, size) + rest;
    PkgRoundTrip(size + |payload|, size, rest);
    var end := op + size + |payload|;
    assert bytes[op + size..end] == SpellPackage(size, payload)[size..];
    assert bytes[op + size..end] == name + tail;
    SegmentFound(name, name + tail);
    assert bytes[op + size + 4..end] == bytes[op + size..end][4..];
  }

  /** A segment after a scope means the path below it. */
  lemma {:induction false} SegmentBelow(scope: Path, name: NameSeg)
    requires |scope| < MAX_SEGMENTS
    ensures Resolved(scope, EncodedName(Local, 0, [name], false, 4)) == Ok(scope + [name])
    ensures Loader.Home(scope + [name]) == scope
  {
    assert Parent(scope + [name]) == scope;
  }

  // ---- The scope that is open ----

  /** The scope and all scopes above it are there, each as the first record of its path. */
  predicate Open(rs: Records, scope: Path)
    decreases |scope|
  {
    && Find(rs, scope).Some? && ScopeCapable(rs[Find(rs, scope).value].kind)
    && (scope != [] ==> Open(rs, Parent(scope)))
  }

  /** The loader reads inside an open scope. */
  predicate Here(rs: Records, p: Loader.Place) {
    Open(rs, p.scope) && Find(rs, p.scope) == Some(p.scopeId)
  }

  /** Nothing has to be added for a scope that is open. */
  lemma {:induction false} OpenStays(plan: Loader.Plan, rs: Records, scope: Path)
    requires Loader.Sound(plan, rs) && Open(rs, scope)
    ensures Loader.EnsureScope(plan, rs, scope) == Ok(rs)
    decreases |scope|
  {
    hide Find, Loader.Sound;
    if scope != [] { OpenStays(plan, rs, Parent(scope)); }
  }

  lemma {:induction false} FoundStill(rs: Records, rs': Records, path: Path)
    requires rs <= rs' && Find(rs, path).Some?
    ensures Find(rs', path) == Find(rs, path)
  {
    var i := Find(rs, path).value;
    assert rs'[i].path == path && forall j :: 0 <= j < i ==> rs'[j] == rs[j];
  }

  lemma {:induction false} OpenStill(rs: Records, rs': Records, scope: Path)
    requires rs <= rs' && Open(rs, scope)
    ensures Open(rs', scope) && Find(rs', scope) == Find(rs, scope)
    decreases |scope|
  {
    hide Find;
    FoundStill(rs, rs', scope);
    if scope != [] { OpenStill(rs, rs', Parent(scope)); }
  }

  /** No record lies at the path or below it. */
  predicate Clear(rs: Records, path: Path) {
    forall i :: 0 <= i < |rs| ==> !(path <= rs[i].path)
  }

  /** The paths of the declarations are clear. */
  predicate Fresh(rs: Records, decls: Decls, scope: Path)
    requires Shallow(decls, |scope|)
  {
    decls.More? ==>
      assert ShallowDecl(decls.first, |scope|);
      Clear(rs, scope + [decls.first.name]) && Fresh(rs, decls.rest, scope)
  }

  /** What a declaration needs of the table: room, and a path of its own. */
  predicate Room(plan: Loader.Plan, rs: Records, d: Decl, scope: Path)
    requires ShallowDecl(d, |scope|)
  {
    && |rs| + |FlatDecl(d, scope)| <= plan.capacity && |rs| + |FlatDecl(d, scope)| <= U32_MAX
    && Clear(rs, scope + [d.name])
  }

  // ---- Each declaration is loaded as its record ----

  /** The loader stands at the declaration. */
  ghost predicate At(plan: Loader.Plan, rs: Records, d: Decl, p: Loader.Place, bytes: seq<byte>)
    requires DeclOk(d) && ShallowDecl(d, |p.scope|)
  {
    Loader.Ready(plan, rs, p, bytes) && Spelled(d) <= bytes && Here(rs, p) && Room(plan, rs, d, p.scope)
  }

  /** The table and the length that the declaration leads to. */
  function Outcome(rs: Records, d: Decl, p: Loader.Place): Result<Loader.Loaded>
    requires DeclOk(d) && ShallowDecl(d, |p.scope|)
  {
    Ok(Loader.Loaded(After(rs, d, p), |Spelled(d)|))
  }

  lemma {:induction false} Afresh(plan: Loader.Plan, rs: Records, d: Decl, p: Loader.Place)
    requires ShallowDecl(d, |p.scope|) && Loader.Sound(plan, rs) && Here(rs, p) && Room(plan, rs, d, p.scope)
    ensures Loader.EnsureScope(plan, rs, p.scope) == Ok(rs) && Loader.IdOf(rs, p.scope) == p.scopeId
    ensures Find(rs, p.scope + [d.name]).None? && |rs| < plan.capacity && |rs| < U32_MAX
    ensures Loader.Home(p.scope + [d.name]) == p.scope
    ensures Resolved(p.scope, EncodedName(Local, 0, [d.name], false, 4)) == Ok(p.scope + [d.name])
  {
    hide Loader.EnsureScope, Loader.Sound, Open;
    OpenStays(plan, rs, p.scope);
    SegmentBelow(p.scope, d.name);
  }

  lemma {:induction false} DeclareHere(plan: Loader.Plan, rs: Records, d: Decl, p: Loader.Place, kind: ObjectKind,
                                       body: Option<Location>, payload: Payload)
    requires ShallowDecl(d, |p.scope|) && Loader.Sound(plan, rs) && Here(rs, p) && Room(plan, rs, d, p.scope)
    requires CheckedKind(kind) && !payload.MethodPayload?
    ensures Loader.Declare(plan, rs, p.scope + [d.name], kind, body, payload)
            == Ok(rs + [Record(|rs|, Some(p.scopeId), kind, p.scope + [d.name], body, payload)])
    ensures Loader.EnsureScope(plan, rs, p.scope) == Ok(rs) && Loader.Home(p.scope + [d.name]) == p.scope
    ensures Resolved(p.scope, EncodedName(Local, 0, [d.name], false, 4)) == Ok(p.scope + [d.name])
  {
    hide Loader.EnsureScope, Find, Loader.Sound, Here, Room;
    Afresh(plan, rs, d, p);
  }

  lemma {:induction false} IntegerLoads(plan: Loader.Plan, rs: Records, d: Decl, p: Loader.Place, bytes: seq<byte>)
    requires d.IntegerDecl? && DeclOk(d) && ShallowDecl(d, |p.scope|) && At(plan, rs, d, p, bytes)
    ensures Loader.NameOp(plan, rs, p, bytes) == Outcome(rs, d, p)
  {
    hide ParseName, LoaderTerms.TermArg, Loader.EnsureScope, Loader.Declare, Loader.Sound, LittleEndian, Resolved, Room;
    hide Loader.Adds, Loader.Kept, SpellLiteral, Here;
    IntegerParts(d.name, d.value, bytes);
    var body := Location(p.block, p.at + 5, 1 + |d.value|);
    DeclareHere(plan, rs, d, p, Name, Some(body), IntegerPayload(LittleEndian(d.value)));
  }

  lemma {:induction false} MutexLoads(plan: Loader.Plan, rs: Records, d: Decl, p: Loader.Place, bytes: seq<byte>)
    requires d.MutexDecl? && DeclOk(d) && ShallowDecl(d, |p.scope|) && At(plan, rs, d, p, bytes) && |bytes| >= 2
    ensures Loader.MutexOp(plan, rs, p, bytes) == Outcome(rs, d, p)
  {
    hide ParseName, Loader.EnsureScope, Loader.Declare, Loader.Sound, Resolved, Room, Here;
    Chop([0x5B, 0x01], d.name + [d.level], bytes);
    Chop(d.name, [d.level], bytes[2..]);
    SegmentFound(d.name, bytes[2..]);
    DeclareHere(plan, rs, d, p, Mutex, None, NoPayload);
  }

  lemma {:induction false} RegionLoads(plan: Loader.Plan, rs: Records, d: Decl, p: Loader.Place, bytes: seq<byte>)
    requires d.RegionDecl? && DeclOk(d) && ShallowDecl(d, |p.scope|) && At(plan, rs, d, p, bytes) && |bytes| >= 2
    ensures Loader.OpRegionOp(plan, rs, p, bytes) == Outcome(rs, d, p)
  {
    hide ParseName, LoaderTerms.TermArg, Loader.EnsureScope, Find, Loader.Sound, LittleEndian, Loader.AddressSpace, Resolved;
    hide Room, Here;
    Afresh(plan, rs, d, p);
    RegionParts(d.name, d.space, d.base, d.length, bytes);
  }

  lemma {:induction false} MethodLoads(plan: Loader.Plan, rs: Records, d: Decl, p: Loader.Place, bytes: seq<byte>)
    requires d.MethodDecl? && DeclOk(d) && ShallowDecl(d, |p.scope|) && At(plan, rs, d, p, bytes) && bytes[0] == 0x14
    ensures Loader.MethodOp(plan, rs, p, bytes) == Outcome(rs, d, p)
  {
    hide Loader.PackageHeader, Loader.EnsureScope, Find, Loader.Sound, SpellPackage, Classify, Resolved, ParseName;
    hide Spelled, Payload, Loader.Adds, Loader.Kept, Room, Here;
    Afresh(plan, rs, d, p);
    MethodParts(d, bytes);
  }

  lemma {:induction false} MethodParts(d: Decl, bytes: seq<byte>)
    requires d.MethodDecl? && DeclOk(d) && Spelled(d) <= bytes
    ensures |Spelled(d)| == d.size + 6 + |d.code| && bytes[d.size + 5] == d.flags
    ensures Loader.PackageHeader(bytes, 1)
            == Ok(Loader.Header(PkgLength(d.size + 5 + |d.code|, d.size), EncodedName(Local, 0, [d.name], false, 4),
                                d.size + 5, |Spelled(d)|))
    ensures bytes[d.size + 6..|Spelled(d)|] == d.code
  {
    hide Loader.PackageHeader, SpellPackage, ParseName;
    Chop([0x14], SpellPackage(d.size, Payload(d)), bytes);
    PackageSize(d.size, Payload(d));
    HeaderReadBack(bytes, 1, d.size, d.name, [d.flags] + d.code);
    var end := |Spelled(d)|;
    assert bytes[d.size + 5..end][0] == d.flags;
    assert bytes[d.size + 6..end] == bytes[d.size + 5..end][1..];
  }

  lemma {:induction false} FieldLoads(plan: Loader.Plan, rs: Records, d: Decl, p: Loader.Place, bytes: seq<byte>)
    requires d.FieldDecl? && DeclOk(d) && ShallowDecl(d, |p.scope|) && At(plan, rs, d, p, bytes) && |bytes| >= 2
    ensures Loader.FieldOp(plan, rs, p, bytes) == Outcome(rs, d, p)
  {
    hide Loader.PackageHeader, Loader.FieldEntries, Find, Loader.Sound, SpellPackage, EncodePkg, Resolved, Room, Here;
    hide Recorded, Payload;
    FieldParts(d, bytes);
    SegmentBelow(p.scope, d.region);
    EntriesLoad(plan, rs, d, p, bytes[..|Spelled(d)|], d.size + 7);
  }

  lemma {:induction false} FieldParts(d: Decl, bytes: seq<byte>)
    requires d.FieldDecl? && DeclOk(d) && Spelled(d) <= bytes
    ensures |Spelled(d)| == d.size + 20 && bytes[d.size + 6] == d.flags
    ensures Loader.PackageHeader(bytes, 2)
            == Ok(Loader.Header(PkgLength(d.size + 18, d.size), EncodedName(Local, 0, [d.region], false, 4),
                                d.size + 6, |Spelled(d)|))
    ensures bytes[..|Spelled(d)|][d.size + 7..] == [0x00] + EncodePkg(d.offset, 4) + (d.name + EncodePkg(d.width, 4))
  {
    hide Loader.PackageHeader, SpellPackage, EncodePkg, ParseName;
    var entries := [0x00] + EncodePkg(d.offset, 4) + (d.name + EncodePkg(d.width, 4));
    Chop([0x5B, 0x81], SpellPackage(d.size, Payload(d)), bytes);
    PackageSize(d.size, Payload(d));
    HeaderReadBack(bytes, 2, d.size, d.region, [d.flags] + entries);
    var end := |Spelled(d)|;
    assert bytes[d.size + 6..end][0] == d.flags;
    assert bytes[..end][d.size + 7..] == bytes[d.size + 6..end][1..];
  }

  /** A skip and a named entry make one field. */
  lemma {:induction false} EntriesLoad(plan: Loader.Plan, rs: Records, d: Decl, p: Loader.Place, list: seq<byte>, start: nat)
    requires d.FieldDecl? && DeclOk(d) && ShallowDecl(d, |p.scope|) && Room(plan, rs, d, p.scope)
    requires Loader.Sound(plan, rs) && Loader.ScopeRef(rs, p.scopeId, p.scope)
    requires start <= |list|
    requires list[start..] == [0x00] + EncodePkg(d.offset, 4) + (d.name + EncodePkg(d.width, 4))
    ensures var h := Loader.FieldHome(p.scope, p.scopeId, Find(rs, p.scope + [d.region]), d.flags);
            Loader.FieldEntries(plan, rs, list, start, h, 0) == Ok(rs + [Recorded(d, rs, p)])
  {
    hide Loader.EntryAt, Find, Loader.Sound, EncodePkg, Bit, Clear;
    SkipEntry(list, start, d.offset, d.name + EncodePkg(d.width, 4));
    assert list[start + 5..] == d.name + EncodePkg(d.width, 4);
    NamedEntry(list, start + 5, d.name, d.width);
    Loader.UpdateRuleBits(d.flags);
    var h := Loader.FieldHome(p.scope, p.scopeId, Find(rs, p.scope + [d.region]), d.flags);
    var one := Loader.OneField(plan, rs, list, start + 5, h, d.offset, d.width);
    assert one == Ok(rs + [Recorded(d, rs, p)]);
    assert Loader.FieldEntries(plan, one.value, list, start + 13, h, Loader.SaturatingAdd(d.offset, d.width)) == one;
  }

  lemma {:induction false} SkipEntry(list: seq<byte>, cursor: nat, bits: nat, rest: seq<byte>)
    requires cursor <= |list| && bits < PkgBound(4) && list[cursor..] == [0x00] + EncodePkg(bits, 4) + rest
    ensures cursor < |list| && Loader.EntryAt(list, cursor) == Ok(Loader.Gap(bits, cursor + 5))
  {
    hide ParsePkg, EncodePkg;
    assert list[cursor] == list[cursor..][0] == 0x00;
    assert list[cursor + 1..] == EncodePkg(bits, 4) + rest;
    PkgRoundTrip(bits, 4, rest);
  }

  lemma {:induction false} NamedEntry(list: seq<byte>, cursor: nat, name: NameSeg, bits: nat)
    requires cursor <= |list| && bits < PkgBound(4) && list[cursor..] == name + EncodePkg(bits, 4)
    ensures cursor < |list| && Loader.EntryAt(list, cursor) == Ok(Loader.Item(bits, cursor + 8))
    ensures list[cursor..cursor + 4] == name && |list| == cursor + 8
  {
    hide ParsePkg, EncodePkg;
    assert list[cursor] == list[cursor..][0] == name[0];
    assert NameChar(name[0]);
    assert list[cursor..cursor + 4] == name;
    assert list[cursor + 4..] == EncodePkg(bits, 4) + [];
    PkgRoundTrip(bits, 4, []);
  }

  // ---- What is nested ----

  lemma {:induction false} NestParts(d: Decl, bytes: seq<byte>)
    requires d.NestDecl? && DeclOk(d) && Spelled(d) <= bytes
    ensures var op := |NestLead(d.device)|;
            && AllOk(d.inner) && op <= |bytes| && |Spelled(d)| == Front(d) + |Code(d.inner)|
            && Loader.PackageHeader(bytes, op)
               == Ok(Loader.Header(PkgLength(d.size + 4 + |Code(d.inner)|, d.size),
                                   EncodedName(Local, 0, [d.name], false, 4),
                                   Front(d), |Spelled(d)|))
            && bytes[Front(d)..|Spelled(d)|] == Code(d.inner)
  {
    hide Loader.PackageHeader, SpellPackage, ParseName, Code;
    Chop(NestLead(d.device), SpellPackage(d.size, Payload(d)), bytes);
    PackageSize(d.size, Payload(d));
    HeaderReadBack(bytes, |NestLead(d.device)|, d.size, d.name, Code(d.inner));
  }

  /** The record of the Device or Scope itself, before what is nested in it. */
  lemma {:induction false} NestRecorded(plan: Loader.Plan, rs: Records, d: Decl, p: Loader.Place)
    requires d.NestDecl? && DeclOk(d) && ShallowDecl(d, |p.scope|) && Loader.Sound(plan, rs) && Here(rs, p)
    requires Room(plan, rs, d, p.scope)
    ensures var mid, path := Ok(rs + [Recorded(d, rs, p)]), p.scope + [d.name];
            && (d.device ==> Loader.Declare(plan, rs, path, Device, Recorded(d, rs, p).body, NoPayload) == mid)
            && (!d.device ==> Loader.EnsureScope(plan, rs, path) == mid)
    ensures Loader.EnsureScope(plan, rs, p.scope) == Ok(rs) && Loader.Home(p.scope + [d.name]) == p.scope
    ensures Resolved(p.scope, EncodedName(Local, 0, [d.name], false, 4)) == Ok(p.scope + [d.name])
  {
    hide Find, Loader.Sound, Room, Open, Resolved, Loader.Declare, Loader.EnsureScope;
    DeclareHere(plan, rs, d, p, if d.device then Device else Scope, Recorded(d, rs, p).body, NoPayload);
    if !d.device { NewScope(plan, rs, d, p); }
  }

  lemma {:induction false} NewScope(plan: Loader.Plan, rs: Records, d: Decl, p: Loader.Place)
    requires d.NestDecl? && !d.device && DeclOk(d) && ShallowDecl(d, |p.scope|) && Loader.Sound(plan, rs) && Here(rs, p)
    requires Room(plan, rs, d, p.scope)
    ensures Loader.EnsureScope(plan, rs, p.scope + [d.name]) == Ok(rs + [Recorded(d, rs, p)])
  {
    hide Find, Loader.Sound, Room, Open, Resolved, Code;
    Afresh(plan, rs, d, p);
    assert Parent(p.scope + [d.name]) == p.scope;
  }

  /** What is nested is read in an open scope of its own, where nothing has been declared yet. */
  lemma {:induction false} NestOpens(plan: Loader.Plan, rs: Records, d: Decl, p: Loader.Place)
    requires d.NestDecl? && DeclOk(d) && ShallowDecl(d, |p.scope|) && Here(rs, p) && Room(plan, rs, d, p.scope)
    ensures var rs', p' := rs + [Recorded(d, rs, p)], Within(d, rs, p);
            && Here(rs', p') && Shallow(d.inner, |p'.scope|) && Fresh(rs', d.inner, p'.scope)
            && |rs'| + |Flat(d.inner, p'.scope)| <= plan.capacity && |rs'| + |Flat(d.inner, p'.scope)| <= U32_MAX
  {
    hide Open, Code;
    var rs', p' := rs + [Recorded(d, rs, p)], Within(d, rs, p);
    OpenStill(rs, rs', p.scope);
    assert Parent(p'.scope) == p.scope;
    assert rs'[|rs|].path == p'.scope;
    forall i | 0 <= i < |rs| ensures rs'[i].path != p'.scope { assert !(p'.scope <= rs[i].path); }
    assert Find(rs', p'.scope) == Some(|rs|);
    OpenBelow(rs', p'.scope);
    NothingBelow(rs', p'.scope, d.inner);
  }

  lemma {:induction false} OpenBelow(rs: Records, scope: Path)
    requires scope != [] && Open(rs, Parent(scope)) && Find(rs, scope).Some? && ScopeCapable(rs[Find(rs, scope).value].kind)
    ensures Open(rs, scope)
  {
  }

  lemma {:induction false} NothingBelow(rs: Records, scope: Path, decls: Decls)
    requires Shallow(decls, |scope|) && forall i :: 0 <= i < |rs| ==> scope <= rs[i].path ==> rs[i].path == scope
    ensures Fresh(rs, decls, scope)
    decreases decls
  {
    if decls.More? {
      var path := scope + [decls.first.name];
      assert scope <= path;
      assert Clear(rs, path);
      NothingBelow(rs, scope, decls.rest);
    }
  }

  lemma {:induction false} NestLoads(plan: Loader.Plan, rs: Records, d: Decl, p: Loader.Place, bytes: seq<byte>)
    requires d.NestDecl? && DeclOk(d) && ShallowDecl(d, |p.scope|) && At(plan, rs, d, p, bytes) && NamesDiffer(d.inner)
    ensures d.device ==> |bytes| >= 2 && Loader.ScopedObjectOp(plan, rs, p, bytes, Device, 0) == Outcome(rs, d, p)
    ensures !d.device ==> Loader.ScopeOp(plan, rs, p, bytes) == Outcome(rs, d, p)
    decreases d, 0
  {
    hide Loader.Ready, Loader.PackageHeader, Loader.EnsureScope, Loader.Declare, Loader.Walk, Loader.Walked, Loader.Kept;
    hide Spelled, Payload, Resolved, Room, Here, Find, TableFrom, Fresh, Flat, Code, Loader.Extends, Loader.NoNewMethods;
    NestParts(d, bytes);
    var rs', p' := rs + [Recorded(d, rs, p)], Within(d, rs, p);
    NestReady(plan, rs, d, p, bytes);
    NestOpens(plan, rs, d, p);
    DeclsLoad(plan, rs', d.inner, p');
  }

  lemma {:induction false} NestReady(plan: Loader.Plan, rs: Records, d: Decl, p: Loader.Place, bytes: seq<byte>)
    requires d.NestDecl? && DeclOk(d) && ShallowDecl(d, |p.scope|) && At(plan, rs, d, p, bytes)
    ensures var rs', path := rs + [Recorded(d, rs, p)], p.scope + [d.name];
            && Loader.Ready(plan, rs', Within(d, rs, p), Code(d.inner))
            && (d.device ==> Loader.Declare(plan, rs, path, Device, Recorded(d, rs, p).body, NoPayload) == Ok(rs'))
            && (!d.device ==> Loader.EnsureScope(plan, rs, path) == Ok(rs') && Find(rs', path) == Some(|rs|))
            && Loader.EnsureScope(plan, rs, p.scope) == Ok(rs) && Loader.Home(path) == p.scope
            && Resolved(p.scope, EncodedName(Local, 0, [d.name], false, 4)) == Ok(path)
  {
    hide Loader.PackageHeader, Loader.EnsureScope, Loader.Declare, Spelled, Payload, Resolved, Code, Room, Here;
    NestParts(d, bytes);
    NestRecorded(plan, rs, d, p);
    NestOpens(plan, rs, d, p);
    HereIs(rs + [Recorded(d, rs, p)], Within(d, rs, p));
    Loader.NestedReady(plan, rs, rs + [Recorded(d, rs, p)], p, bytes, Front(d), |Spelled(d)|, p.scope + [d.name], |rs|);
  }

  lemma {:induction false} HereIs(rs: Records, p: Loader.Place)
    requires Here(rs, p)
    ensures Loader.ScopeRef(rs, p.scopeId, p.scope) && Find(rs, p.scope) == Some(p.scopeId)
  {
  }

  /** The opcodes lead the loader to the right parser. */
  lemma {:induction false} DeclLead(d: Decl, bytes: seq<byte>)
    requires DeclOk(d) && Spelled(d) <= bytes
    ensures bytes != [] && bytes[0] == match d
                                       case IntegerDecl(_, _) => 0x08
                                       case MethodDecl(_, _, _, _) => 0x14
                                       case NestDecl(_, _, device, _) => if device then 0x5B else 0x10
                                       case _ => 0x5B
    ensures bytes[0] == 0x5B ==>
              |bytes| >= 2 && bytes[1] == match d
                                          case MutexDecl(_, _) => 0x01
                                          case RegionDecl(_, _, _, _) => 0x80
                                          case FieldDecl(_, _, _, _, _, _) => 0x81
                                          case _ => 0x82
  {
    hide SpellPackage, Payload;
    var n := |Spelled(d)|;
    assert bytes[0] == bytes[..n][0];
    if bytes[0] == 0x5B { assert n >= 2 && bytes[1] == bytes[..n][1]; }
  }

  lemma {:induction false} DeclLoads(plan: Loader.Plan, rs: Records, d: Decl, p: Loader.Place, bytes: seq<byte>)
    requires DeclOk(d) && ShallowDecl(d, |p.scope|) && At(plan, rs, d, p, bytes)
    requires d.NestDecl? ==> NamesDiffer(d.inner)
    ensures bytes != [] && Loader.TermObject(plan, rs, p, bytes) == Outcome(rs, d, p)
    decreases d, 1
  {
    hide Outcome, Room, Loader.Ready, Spelled, Recorded, DeclOk, Here;
    hide Loader.NameOp, Loader.MutexOp, Loader.OpRegionOp, Loader.FieldOp, Loader.MethodOp, Loader.ScopedObjectOp;
    hide Loader.ScopeOp;
    DeclLead(d, bytes);
    match d {
      case IntegerDecl(_, _) => IntegerLoads(plan, rs, d, p, bytes);
      case MutexDecl(_, _) => MutexLoads(plan, rs, d, p, bytes);
      case RegionDecl(_, _, _, _) => RegionLoads(plan, rs, d, p, bytes);
      case FieldDecl(_, _, _, _, _, _) => FieldLoads(plan, rs, d, p, bytes);
      case MethodDecl(_, _, _, _) => MethodLoads(plan, rs, d, p, bytes);
      case NestDecl(_, _, _, _) => NestLoads(plan, rs, d, p, bytes);
    }
  }

  // ---- The block is loaded as the table ----

  /** The table grows by one record for each declaration, at its path or below. */
  lemma {:induction false} AfterGrows(rs: Records, d: Decl, p: Loader.Place)
    requires DeclOk(d) && ShallowDecl(d, |p.scope|)
    ensures var rs' := After(rs, d, p);
            && rs <= rs' && |rs'| == |rs| + |FlatDecl(d, p.scope)|
            && forall i :: |rs| <= i < |rs'| ==> p.scope + [d.name] <= rs'[i].path
    decreases d
  {
    hide Find, Classify, LittleEndian, Spelled;
    if d.NestDecl? { TableGrows(rs + [Recorded(d, rs, p)], d.inner, Within(d, rs, p)); }
  }

  lemma {:induction false} TableGrows(rs: Records, decls: Decls, p: Loader.Place)
    requires AllOk(decls) && Shallow(decls, |p.scope|)
    ensures var rs' := TableFrom(rs, decls, p);
            && rs <= rs' && |rs'| == |rs| + |Flat(decls, p.scope)|
            && forall i :: |rs| <= i < |rs'| ==> p.scope <= rs'[i].path
    decreases decls
  {
    hide Find, Spelled, After, FlatDecl;
    if decls.More? {
      AfterGrows(rs, decls.first, p);
      TableGrows(After(rs, decls.first, p), decls.rest, p.(at := p.at + |Spelled(decls.first)|));
    }
  }

  /** The other declarations of the scope are as clear after a declaration as before it. */
  lemma {:induction false} StillFresh(rs: Records, d: Decl, p: Loader.Place, more: Decls)
    requires DeclOk(d) && ShallowDecl(d, |p.scope|) && Shallow(more, |p.scope|)
    requires Fresh(rs, more, p.scope) && Differs(d.name, more)
    ensures Fresh(After(rs, d, p), more, p.scope)
    decreases more
  {
    hide After, DeclOk;
    if more.More? {
      AfterGrows(rs, d, p);
      StillClear(rs, After(rs, d, p), p.scope, d.name, more.first.name);
      StillFresh(rs, d, p, more.rest);
    }
  }

  lemma {:induction false} StillClear(rs: Records, rs': Records, scope: Path, added: NameSeg, other: NameSeg)
    requires |scope| < MAX_SEGMENTS && rs <= rs' && added != other && Clear(rs, scope + [other])
    requires forall i :: |rs| <= i < |rs'| ==> scope + [added] <= rs'[i].path
    ensures Clear(rs', scope + [other])
  {
    forall i | 0 <= i < |rs'| ensures !(scope + [other] <= rs'[i].path) {
      if i >= |rs| {
        assert rs'[i].path[|scope|] == (scope + [added])[|scope|] == added;
        assert (scope + [other])[|scope|] == other;
      }
    }
  }

  lemma {:induction false} DeclsLoad(plan: Loader.Plan, rs: Records, decls: Decls, p: Loader.Place)
    requires AllOk(decls) && NamesDiffer(decls) && Shallow(decls, |p.scope|) && Fresh(rs, decls, p.scope)
    requires |rs| + |Flat(decls, p.scope)| <= plan.capacity && |rs| + |Flat(decls, p.scope)| <= U32_MAX
    requires Loader.Ready(plan, rs, p, Code(decls)) && Here(rs, p)
    ensures Loader.Walk(plan, rs, p, Code(decls)) == Ok(TableFrom(rs, decls, p))
    decreases decls, 2
  {
    hide Loader.TermObject, Loader.Ready, Loader.Walk, Find, Spelled, DeclOk, Loader.Sound, After, Here, FlatDecl;
    hide ShallowDecl;
    var bytes := Code(decls);
    if decls.NoDecls? {
      LoaderMachine.WalkNothing(plan, rs, p);
    } else {
      var d, more := decls.first, decls.rest;
      var rs', n := After(rs, d, p), |Spelled(d)|;
      assert Room(plan, rs, d, p.scope);
      DeclLoads(plan, rs, d, p, bytes);
      LoaderMachine.WalkStep(plan, rs, p, bytes, Loader.Loaded(rs', n));
      assert bytes[n..] == Code(more);
      AfterGrows(rs, d, p);
      StillFresh(rs, d, p, more);
      if n < |bytes| {
        HereStill(rs, rs', p, p.at + n);
        DeclsLoad(plan, rs', more, p.(at := p.at + n));
      } else {
        NoCodeNoDecls(more);
      }
    }
  }

  lemma {:induction false} HereStill(rs: Records, rs': Records, p: Loader.Place, at: nat)
    requires Here(rs, p) && rs <= rs'
    ensures Here(rs', p.(at := at))
  {
    OpenStill(rs, rs', p.scope);
  }

  lemma {:induction false} NoCodeNoDecls(decls: Decls)
    requires AllOk(decls) && Code(decls) == []
    ensures decls.NoDecls?
  {
  }

  /** What is asked of the declarations of a whole block. */
  predicate WellFormed(decls: Decls) {
    AllOk(decls) && NamesDiffer(decls) && Shallow(decls, 0)
  }

  /** The load of the block gives exactly the table of its declarations. */
  lemma {:induction false} BlockLoads(plan: Loader.Plan, decls: Decls)
    requires WellFormed(decls) && plan.Valid() && plan.blocks == [Code(decls)]
    requires |Flat(decls, [])| < plan.capacity && |Flat(decls, [])| < U32_MAX
    ensures Loader.LoadAll(plan) == Ok(Table(decls))
  {
    hide Loader.Walk, Loader.Sound, Loader.Ready, LoaderMachine.Settled, TableFrom, Code, Loader.LoadBlocks, Flat;
    hide Loader.LoadAll, Loader.Extends, Loader.Walked, Fresh;
    var rs := [ROOT_RECORD];
    LoaderMachine.RootAlone(plan);
    LoaderMachine.BlockReady(plan, rs, 0);
    NothingBelow(rs, [], decls);
    DeclsLoad(plan, rs, decls, ROOT_PLACE);
    NoMoreBlocks(plan, Table(decls));
    LoadStarts(plan);
  }

  lemma {:induction false} NoMoreBlocks(plan: Loader.Plan, rs: Records)
    requires plan.Valid() && |plan.blocks| == 1 && LoaderMachine.Settled(plan, rs, 1)
    ensures Loader.LoadBlocks(plan, rs, 1) == Ok(rs)
  {
  }

  lemma {:induction false} LoadStarts(plan: Loader.Plan)
    requires plan.Valid() && plan.capacity > 0 && LoaderMachine.Settled(plan, [ROOT_RECORD], 0)
    ensures Loader.LoadAll(plan) == Loader.LoadBlocks(plan, [ROOT_RECORD], 0)
  {
  }

  // ---- What the records of the table say ----

  /** Record `id` is that of the declaration: its path and kind, and for a method where its code is, for an integer
      its value, for a region where it lies, and for a field its region, its bits and its rule. */
  ghost predicate Lists(blocks: seq<seq<byte>>, rs: Records, e: Entry, id: nat) {
    id < |rs| && |e.scope| < MAX_SEGMENTS &&
    var r := rs[id];
    && r.id == id && r.path == e.scope + [e.decl.name]
    && (IsMethod(r) <==> e.decl.MethodDecl?)
    && match e.decl
       case MethodDecl(_, _, flags, code) =>
         && r.payload.info.node == id && r.payload.info.argCount == flags % 8
         && CodeBytes(blocks, r.payload.info.body) == Some(code)
       case IntegerDecl(_, value) => r.payload.IntegerPayload? && r.payload.value == LittleEndian(value)
       case RegionDecl(_, space, base, length) =>
         && r.payload.RegionPayload? && r.payload.region.space == Loader.AddressSpace(space)
         && r.payload.region.offset.Some? && r.payload.region.offset.value == LittleEndian(base)
         && r.payload.region.length.Some? && r.payload.region.length.value == LittleEndian(length)
       case FieldDecl(_, _, region, flags, offset, width) =>
         && r.payload.FieldPayload? && r.payload.field.region == Find(rs[..id], e.scope + [region])
         && r.payload.field.bitOffset == offset && r.payload.field.bitWidth == width
         && r.payload.field.update == RuleOf(flags)
       case _ => true
  }

  lemma {:induction false} ListsStill(blocks: seq<seq<byte>>, rs: Records, rs': Records, e: Entry, id: nat)
    requires rs <= rs' && Lists(blocks, rs, e, id)
    ensures Lists(blocks, rs', e, id)
  {
    hide Find, CodeBytes, LittleEndian;
    assert rs'[..id] == rs[..id];
  }

  lemma {:induction false} OwnRecord(plan: Loader.Plan, rs: Records, d: Decl, p: Loader.Place)
    requires DeclOk(d) && ShallowDecl(d, |p.scope|) && Loader.Shows(plan, p, Spelled(d))
    ensures Lists(plan.blocks, rs + [Recorded(d, rs, p)], Entry(p.scope, d), |rs|)
  {
    hide Find, Classify, LittleEndian, CodeBytes, Spelled, Bit, Code, Payload, Loader.AddressSpace, Loader.FieldAccess;
    assert (rs + [Recorded(d, rs, p)])[..|rs|] == rs;
    if d.MethodDecl? {
      MethodParts(d, Spelled(d));
      CodeShown(plan, p, Spelled(d), d.size + 6, d.code);
    }
  }

  lemma {:induction false} CodeShown(plan: Loader.Plan, p: Loader.Place, bytes: seq<byte>, from: nat, code: seq<byte>)
    requires Loader.Shows(plan, p, bytes) && from + |code| <= |bytes| && bytes[from..from + |code|] == code
    ensures CodeBytes(plan.blocks, Location(p.block, p.at + from, |code|)) == Some(code)
  {
    Loader.SliceOfSlice(plan.blocks[p.block], p.at, bytes, from, from + |code|);
  }

  lemma {:induction false} ShownPart(plan: Loader.Plan, p: Loader.Place, bytes: seq<byte>, from: nat, to: nat,
                                     inner: Loader.Place)
    requires Loader.Shows(plan, p, bytes) && from <= to <= |bytes| && inner.block == p.block && inner.at == p.at + from
    ensures Loader.Shows(plan, inner, bytes[from..to])
  {
    Loader.SliceOfSlice(plan.blocks[p.block], p.at, bytes, from, to);
  }

  /** Record `|rs| + k` of the table is that of declaration `k`, in the order in which they are listed. */
  lemma {:induction false} RecordsInOrder(plan: Loader.Plan, rs: Records, decls: Decls, p: Loader.Place, k: nat)
    requires AllOk(decls) && Shallow(decls, |p.scope|) && Loader.Shows(plan, p, Code(decls))
    requires k < |Flat(decls, p.scope)|
    ensures Lists(plan.blocks, TableFrom(rs, decls, p), Flat(decls, p.scope)[k], |rs| + k)
    decreases decls, 1
  {
    hide Spelled, DeclOk, After, FlatDecl, Lists, Loader.Shows, ShallowDecl;
    var d, more, n := decls.first, decls.rest, |Spelled(decls.first)|;
    var p', rs' := p.(at := p.at + n), After(rs, d, p);
    AfterGrows(rs, d, p);
    TableGrows(rs', more, p');
    assert Code(decls)[0..n] == Spelled(d) && Code(decls)[n..|Code(decls)|] == Code(more);
    var j := |FlatDecl(d, p.scope)|;
    if k < j {
      ShownPart(plan, p, Code(decls), 0, n, p);
      RecordsOfOne(plan, rs, d, p, k);
      ListsStill(plan.blocks, rs', TableFrom(rs, decls, p), Flat(decls, p.scope)[k], |rs| + k);
    } else {
      ShownPart(plan, p, Code(decls), n, |Code(decls)|, p');
      RecordsInOrder(plan, rs', more, p', k - j);
    }
  }

  lemma {:induction false} RecordsOfOne(plan: Loader.Plan, rs: Records, d: Decl, p: Loader.Place, k: nat)
    requires DeclOk(d) && ShallowDecl(d, |p.scope|) && Loader.Shows(plan, p, Spelled(d)) && k < |FlatDecl(d, p.scope)|
    ensures Lists(plan.blocks, After(rs, d, p), FlatDecl(d, p.scope)[k], |rs| + k)
    decreases d, 0
  {
    hide Spelled, Lists, Loader.Shows, Recorded, Code, Payload, TableFrom, Flat, Shallow;
    var rs' := rs + [Recorded(d, rs, p)];
    OwnRecord(plan, rs, d, p);
    if d.NestDecl? {
      TableGrows(rs', d.inner, Within(d, rs, p));
      if k == 0 {
        ListsStill(plan.blocks, rs', After(rs, d, p), Entry(p.scope, d), |rs|);
      } else {
        NestParts(d, Spelled(d));
        ShownPart(plan, p, Spelled(d), Front(d), |Spelled(d)|, Within(d, rs, p));
        RecordsInOrder(plan, rs', d.inner, Within(d, rs, p), k - 1);
      }
    }
  }

  /** And no record before it has its path. */
  lemma {:induction false} FirstInOrder(rs: Records, decls: Decls, p: Loader.Place, k: nat)
    requires AllOk(decls) && Shallow(decls, |p.scope|) && NamesDiffer(decls) && Fresh(rs, decls, p.scope)
    requires k < |Flat(decls, p.scope)|
    ensures FirstAtItsPath(TableFrom(rs, decls, p), |rs| + k)
    decreases decls, 1
  {
    hide Spelled, DeclOk, After, FlatDecl, ShallowDecl;
    var d, more := decls.first, decls.rest;
    var p', rs' := p.(at := p.at + |Spelled(d)|), After(rs, d, p);
    AfterGrows(rs, d, p);
    TableGrows(rs', more, p');
    var j := |FlatDecl(d, p.scope)|;
    if k < j {
      FirstOfOne(rs, d, p, k);
    } else {
      StillFresh(rs, d, p, more);
      FirstInOrder(rs', more, p', k - j);
    }
  }

  predicate FirstAtItsPath(rs: Records, i: nat) {
    i < |rs| && forall j :: 0 <= j < i ==> rs[j].path != rs[i].path
  }

  lemma {:induction false} FirstOfOne(rs: Records, d: Decl, p: Loader.Place, k: nat)
    requires DeclOk(d) && ShallowDecl(d, |p.scope|) && k < |FlatDecl(d, p.scope)|
    requires Clear(rs, p.scope + [d.name]) && (d.NestDecl? ==> NamesDiffer(d.inner))
    ensures FirstAtItsPath(After(rs, d, p), |rs| + k)
    decreases d, 0
  {
    hide Spelled, Code, Payload, Find, Classify, LittleEndian, Bit;
    var rs', path := rs + [Recorded(d, rs, p)], p.scope + [d.name];
    assert rs'[|rs|].path == path;
    AfterGrows(rs, d, p);
    if d.NestDecl? {
      TableGrows(rs', d.inner, Within(d, rs, p));
      if k > 0 {
        NothingBelow(rs', path, d.inner);
        FirstInOrder(rs', d.inner, Within(d, rs, p), k - 1);
      }
    }
  }

  /** Record `i` of the whole table is that of the declaration listed before it. */
  lemma {:induction false} RecordIs(decls: Decls, i: nat)
    requires AllOk(decls) && Shallow(decls, 0) && 1 <= i <= |Flat(decls, [])|
    ensures |Table(decls)| == |Flat(decls, [])| + 1 && Lists([Code(decls)], Table(decls), Flat(decls, [])[i - 1], i)
  {
    hide Code, TableFrom, Lists, Flat;
    var plan := Loader.Plan(0, [Code(decls)]);
    assert Code(decls)[0..|Code(decls)|] == Code(decls);
    RecordsInOrder(plan, [ROOT_RECORD], decls, ROOT_PLACE, i - 1);
    TableGrows([ROOT_RECORD], decls, ROOT_PLACE);
  }

  /** A declaration's path leads to its record. */
  lemma {:induction false} PathLeadsToIt(decls: Decls, i: nat)
    requires WellFormed(decls) && 1 <= i <= |Flat(decls, [])|
    ensures i < |Table(decls)| && FirstAtItsPath(Table(decls), i) && Find(Table(decls), Table(decls)[i].path) == Some(i)
  {
    hide Code, TableFrom, Flat, Fresh;
    TableGrows([ROOT_RECORD], decls, ROOT_PLACE);
    NothingBelow([ROOT_RECORD], [], decls);
    FirstInOrder([ROOT_RECORD], decls, ROOT_PLACE, i - 1);
  }

  lemma {:induction false} TableIds(decls: Decls)
    requires AllOk(decls) && Shallow(decls, 0)
    ensures |Table(decls)| == |Flat(decls, [])| + 1 && Table(decls)[0] == ROOT_RECORD
    ensures forall i :: 0 <= i < |Table(decls)| ==> Table(decls)[i].id == i
  {
    hide Code, TableFrom, Flat;
    TableGrows([ROOT_RECORD], decls, ROOT_PLACE);
    forall i | 1 <= i < |Table(decls)| ensures Table(decls)[i].id == i {
      hide Find, CodeBytes;
      RecordIs(decls, i);
    }
  }

  lemma {:induction false} FoundAtItsId(rs: Records, i: nat)
    requires i < |rs| && forall j :: 0 <= j < |rs| ==> rs[j].id == j
    ensures FindId(rs, i) == Some(i)
  {
    assert rs[i].id == i;
  }

  // ---- From source to result ----

  /** The library has the source of every method it names: the method's code spells it, in the scope the method
      is declared in. */
  ghost predicate Sources(w: World, decls: Decls)
    requires Shallow(decls, 0)
  {
    forall id :: id in w.library ==>
      && 1 <= id <= |Flat(decls, [])| && Flat(decls, [])[id - 1].decl.MethodDecl?
      && var e := Flat(decls, [])[id - 1];
         BlockOk(w, e.scope, w.library[id]) && e.decl.code == SpellBlock(w, e.scope, w.library[id])
  }

  /** The record of a method with a source: its body begins its lookups in the scope the method is declared in. */
  lemma {:induction false} MethodInScope(decls: Decls, w: World, id: nat)
    requires AllOk(decls) && Shallow(decls, 0) && w.records == Table(decls) && Sources(w, decls) && id in w.library
    ensures 1 <= id <= |Flat(decls, [])| && Lists([Code(decls)], w.records, Flat(decls, [])[id - 1], id)
    ensures FindId(w.records, id) == Some(id) && IsMethod(w.records[id]) && w.records[id].payload.info.node == id
    ensures BodyScope(w.records, id) == Flat(decls, [])[id - 1].scope
  {
    hide SpellBlock, BlockOk, FindId, Code, TableFrom, Flat, CodeBytes;
    TableIds(decls);
    RecordIs(decls, id);
    FoundAtItsId(w.records, id);
    var e := Flat(decls, [])[id - 1];
    assert Parent(e.scope + [e.decl.name]) == e.scope;
  }

  /** A namespace loaded from such a block is compiled. */
  lemma {:induction false} LoadedIsCompiled(decls: Decls, m: Machine)
    requires AllOk(decls) && Shallow(decls, 0)
    requires m.records == Table(decls) && m.blocks == [Code(decls)] && Sources(m.TheWorld(), decls)
    ensures m.Compiled()
  {
    hide SpellBlock, BlockOk, FindId, Machine.CompiledMethod, Sources, TableFrom, Code, Flat, Lists;
    TableIds(decls);
    forall i | 0 <= i < |m.records| && IsMethod(m.records[i]) ensures m.CompiledMethod(m.records[i].payload.info) {
      assert i != 0;
      MethodIsCompiled(decls, m, i);
    }
  }

  lemma {:induction false} MethodIsCompiled(decls: Decls, m: Machine, i: nat)
    requires AllOk(decls) && Shallow(decls, 0)
    requires m.records == Table(decls) && m.blocks == [Code(decls)] && Sources(m.TheWorld(), decls)
    requires 1 <= i <= |Flat(decls, [])| && i < |m.records| && IsMethod(m.records[i])
    ensures m.CompiledMethod(m.records[i].payload.info)
  {
    hide SpellBlock, BlockOk, FindId, CodeBytes, Code, TableFrom, Flat;
    RecordIs(decls, i);
    if i in m.library { MethodInScope(decls, m.TheWorld(), i); }
  }

  /** Loads the block and runs a method: the result is what the method's source means in the namespace
      that the declarations make, its names being looked up from the scope the method is declared in. */
  method LoadAndRun(decls: Decls, capacity: nat, revision: byte, host: Host?, state: RuntimeState.Tables?,
                    isText: seq<byte> -> bool, accepts: Request -> bool, id: nat, values: seq<Value>, fuel: nat,
                    ghost w: World)
    returns (r: Result<Verdict>)
    requires WellFormed(decls) && |Code(decls)| <= U32_MAX
    requires |Flat(decls, [])| < capacity && |Flat(decls, [])| < U32_MAX && |values| <= 7
    requires w.records == Table(decls) && w.blocks == [Code(decls)] && w.width == WidthOfRevision(revision)
    requires w.accepts == accepts && w.isText == isText && Sources(w, decls) && id in w.library && AllUsable(w, values)
    requires state != null ==> state.Valid()
    modifies host, state
    ensures match Execute(w, Site(Flat(decls, [])[id - 1].scope, 0), w.library[id],
                          Programs.Entry(values, old(Surroundings(host, state))), fuel)
            case Err(x) => r == Err(x)
            case Ok(flow) =>
              flow.store.shared == Surroundings(host, state).(asked := flow.store.shared.asked) &&
              match flow.control
              case Continue => r == Ok(Verdict(None, false))
              case Blocked => r == Ok(Verdict(None, true))
              case Leave => r == Err(InvalidState)
              case Returned(v) => r == Ok(Verdict(Some(v), false))
  {
    hide Execute, SpellBlock, BlockOk, FindId, Table, Code, Loader.LoadAll, Loader.Sound, Sources;
    hide Machine.Compiled, Flat, Lists, Programs.Entry;
    var plan := Loader.Plan(capacity, [Code(decls)]);
    BlockLoads(plan, decls);
    var loader := new LoaderMachine.NamespaceLoader(plan);
    var loaded := loader.Load();
    assert loaded.Ok?;
    var machine := new Machine(loader.records, plan.blocks, revision, host, state, isText, accepts, w.library, w.indexes);
    assert machine.TheWorld() == w;
    LoadedIsCompiled(decls, machine);
    MethodInScope(decls, w, id);
    r := machine.Evaluate(id, values, fuel, false, Some(w.library[id]));
  }

  /** What a method run from outside starts with. */
  function Surroundings(host: Host?, state: RuntimeState.Tables?): Shared
    reads host, state
  {
    Shared(if state == null then None else Some(state.Contents()), if host == null then None else Some(host.bytes), [])
  }
}
