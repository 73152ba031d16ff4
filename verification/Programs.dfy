/** Method bodies as syntax trees: how they are spelled in bytecode, and what they mean. The meaning is
    written without bytes, offsets or wrapping arithmetic; the evaluator is proved to compute it. */
module Programs {
  import opened Wrappers
  import opened Bits
  import opened Names
  import opened Namespace
  import Fields
  import Loader
  import opened SlotTable
  import opened Values
  import opened Elements
  import RuntimeState

  const MAX_DEPTH: nat := 64

  datatype Register = LocalVariable(i: nat) | Argument(i: nat)
  {
    predicate Valid() { if LocalVariable? then i < 8 else i < 7 }
  }

  /** A name as the bytecode spells it. */
  datatype NameRef = NameRef(anchor: Anchor, carets: nat, segments: seq<NameSeg>)

  datatype Target =
    | Discard
    | Into(register: Register)
    | IntoName(name: NameRef)
    | IntoIndex(base: Expr, index: Expr, rest: Target)

  datatype Expr =
    | Zero
    | One
    | Ones
    | Literal(bytes: seq<byte>)
    | Chars(bytes: seq<byte>)
    | Read(register: Register)
    | Named(name: NameRef)
    | Assign(value: Expr, target: Target)
    | Binary(op: Operator, left: Expr, right: Expr, target: Target)
    | Divide(left: Expr, right: Expr, remainder: Target, quotient: Target)
    | Update(up: bool, target: Target)
    | Invert(value: Expr)
    | Not(value: Expr)
    | SizeOf(value: Expr)
    | TypeOf(value: Expr)
    | Deref(value: Expr)
    | Index(base: Expr, index: Expr, target: Target)
    | Compare(relation: Relation, left: Expr, right: Expr)
    | Call(name: NameRef, args: Args)

  datatype Args = NoArgs | MoreArgs(head: Expr, tail: Args)

  /** What a Name inside a body is declared as. `size` is the number of bytes the package length takes. */
  datatype Init =
    | TextInit(bytes: seq<byte>)
    | BufferInit(size: nat, length: Expr, raw: seq<byte>)
    | PackageInit(size: nat, count: byte, terms: Args)

  datatype Stmt =
    | Do(expr: Expr)
    | Noop
    | Break
    | Return(expr: Expr)
    | Acquire(mutex: NameRef, timeout: seq<byte>)
    | Release(mutex: NameRef)
    | Wait(stall: bool, time: Expr)
    | Signal(device: NameRef, value: Expr)
    | Declare(local: NameSeg, init: Init)
    | DeclareRegion(local: NameSeg, space: byte, base: Expr, length: Expr)
    | DeclareFields(size: nat, region: NameRef, flags: byte, list: seq<byte>)
    | If(size: nat, condition: Expr, yes: Block)
    | IfElse(size: nat, condition: Expr, yes: Block, elseSize: nat, no: Block)
    | While(size: nat, condition: Expr, body: Block)

  datatype Block = Done | Then(first: Stmt, rest: Block)

  /** What a body asks of the host besides bytes. */
  datatype Request = Stall(microseconds: u32) | Sleep(milliseconds: u32) | Notify(node: nat, value: byte)

  /** The loaded namespace with its code, its integer width, the source of every method that may be
      called, the requests the host accepts, which bytes are well-formed text, and whether some method reads
      elements by Index. */
  datatype World = World(records: Records, blocks: seq<seq<byte>>, width: Width, library: map<nat, Block>,
                         accepts: Request -> bool, isText: seq<byte> -> bool, indexes: bool)

  // ---- Spelling ----

  function SpellRegister(r: Register): seq<byte>
    requires r.Valid()
  {
    if r.LocalVariable? then [0x60 + r.i] else [0x68 + r.i]
  }

  function OperatorByte(op: Operator): byte {
    match op
    case Add => 0x72
    case Subtract => 0x74
    case Multiply => 0x77
    case ShiftLeft => 0x79
    case ShiftRight => 0x7A
    case BitsAnd => 0x7B
    case BitsOr => 0x7D
    case BitsXor => 0x7F
  }

  function RelationByte(relation: Relation): byte {
    match relation
    case Equal => 0x93
    case Greater => 0x94
    case Less => 0x95
  }

  /** The prefix that announces a constant of so many bytes. */
  function LiteralByte(length: nat): byte {
    match length
    case 1 => 0x0A
    case 2 => 0x0B
    case 4 => 0x0C
    case _ => 0x0E
  }

  predicate LiteralSize(length: nat) { length == 1 || length == 2 || length == 4 || length == 8 }

  /** A name that can start a term: a dual or multiple name must be anchored, and a single segment
      must not begin with a digit. */
  predicate NameOk(n: NameRef) {
    && (n.anchor == ParentPrefix <==> n.carets > 0)
    && 1 <= |n.segments| <= U8_MAX
    && |SpellName(n)| <= U8_MAX
    && (n.anchor == Local ==> |n.segments| == 1 && !(0x30 <= n.segments[0][0] <= 0x39))
  }

  function SpellName(n: NameRef): seq<byte>
    requires |n.segments| <= U8_MAX
  {
    EncodeName(n.anchor, n.carets, n.segments)
  }

  /** The name the parser makes of it. */
  function Parsed(n: NameRef): EncodedName
    requires |n.segments| <= U8_MAX
  {
    EncodedName(n.anchor, n.carets, n.segments, false, |SpellName(n)|)
  }

  /** The record a name leads to from a scope. */
  function RecordNamed(w: World, scope: Path, n: NameRef): (r: Result<Record>)
    requires |n.segments| <= U8_MAX
  {
    var path :- Lookup(Paths(w.records), scope, Parsed(n));
    match Find(w.records, path)
    case None => Err(UndefinedObject)
    case Some(i) => Ok(w.records[i])
  }

  /** The name leads to an integer object. */
  predicate NamesInteger(w: World, scope: Path, n: NameRef) {
    NameOk(n) && RecordNamed(w, scope, n).Ok? && RecordNamed(w, scope, n).value.payload.IntegerPayload?
  }

  predicate NamesRecord(w: World, scope: Path, n: NameRef) { NameOk(n) && RecordNamed(w, scope, n).Ok? }

  /** A record whose name is neither a call nor a static value: reading it gives an integer, a field, or an error. */
  predicate IsCell(r: Record) {
    !IsMethod(r) && !(r.payload.NoPayload? && r.kind == Name)
  }

  /** The name can be read without a call: if it leads to a record at all, that is a cell. */
  predicate NameReads(w: World, scope: Path, n: NameRef) {
    NameOk(n) && (RecordNamed(w, scope, n).Ok? ==> IsCell(RecordNamed(w, scope, n).value))
  }

  /** The segment of a name that may be bound inside a body. */
  function LocalOf(n: NameRef): Option<NameSeg> {
    if n.anchor == Local && n.carets == 0 && |n.segments| == 1 then Some(n.segments[0]) else None
  }

  function SoleSegment(s: NameSeg): NameRef { NameRef(Local, 0, [s]) }

  /** The segment may be bound inside a body of this scope: it does not hide a method. */
  predicate MayBind(w: World, scope: Path, s: NameSeg) {
    var r := RecordNamed(w, scope, SoleSegment(s));
    r.Ok? ==> !IsMethod(r.value)
  }

  predicate TargetOk(w: World, scope: Path, t: Target) {
    match t
    case Discard => true
    case Into(r) => r.Valid()
    case IntoName(n) => NameOk(n)
    case IntoIndex(b, i, u) => ExprOk(w, scope, b) && ExprOk(w, scope, i) && TargetOk(w, scope, u)
  }

  function SpellTarget(w: World, scope: Path, t: Target): (r: seq<byte>)
    requires TargetOk(w, scope, t)
    ensures r != []
  {
    match t
    case Discard => [0x00]
    case Into(r) => SpellRegister(r)
    case IntoName(n) => NameNotEmpty(n); SpellName(n)
    case IntoIndex(b, i, u) => [0x88] + (Spell(w, scope, b) + (Spell(w, scope, i) + SpellTarget(w, scope, u)))
  }

  function ArgCount(args: Args): nat {
    if args.NoArgs? then 0 else 1 + ArgCount(args.tail)
  }

  /** The call reaches a method of the library that takes as many arguments as it is given. */
  predicate Links(w: World, scope: Path, n: NameRef, args: Args) {
    NamesRecord(w, scope, n)
    && var r := RecordNamed(w, scope, n).value;
       IsMethod(r) && r.payload.info.node in w.library && r.payload.info.argCount == ArgCount(args) <= 7
  }

  predicate ExprOk(w: World, scope: Path, e: Expr) {
    match e
    case Literal(bytes) => LiteralSize(|bytes|)
    case Chars(bytes) => 0 !in bytes
    case Read(r) => r.Valid()
    case Named(n) => NameReads(w, scope, n)
    case Assign(v, t) => ExprOk(w, scope, v) && TargetOk(w, scope, t)
    case Binary(_, l, r, t) => ExprOk(w, scope, l) && ExprOk(w, scope, r) && TargetOk(w, scope, t)
    case Divide(l, r, t, u) =>
      ExprOk(w, scope, l) && ExprOk(w, scope, r) && TargetOk(w, scope, t) && TargetOk(w, scope, u)
    case Update(_, t) => !t.Discard? && TargetOk(w, scope, t) && (t.IntoName? ==> NameReads(w, scope, t.name))
    case Invert(v) => ExprOk(w, scope, v)
    case Not(v) => ExprOk(w, scope, v)
    case SizeOf(v) => ExprOk(w, scope, v)
    case TypeOf(v) => ExprOk(w, scope, v)
    case Deref(v) => ExprOk(w, scope, v)
    case Index(b, i, t) => w.indexes && ExprOk(w, scope, b) && ExprOk(w, scope, i) && TargetOk(w, scope, t)
    case Compare(_, l, r) => ExprOk(w, scope, l) && ExprOk(w, scope, r)
    case Call(n, args) => ArgsOk(w, scope, args) && Links(w, scope, n, args)
    case _ => true
  }

  predicate ArgsOk(w: World, scope: Path, args: Args) {
    args.MoreArgs? ==> ExprOk(w, scope, args.head) && ArgsOk(w, scope, args.tail)
  }

  function Spell(w: World, scope: Path, e: Expr): (r: seq<byte>)
    requires ExprOk(w, scope, e)
    ensures r != []
  {
    match e
    case Zero => [0x00]
    case One => [0x01]
    case Ones => [0xFF]
    case Literal(bytes) => [LiteralByte(|bytes|)] + bytes
    case Chars(bytes) => [0x0D] + (bytes + [0x00])
    case Read(register) => SpellRegister(register)
    case Named(n) => NameNotEmpty(n); SpellName(n)
    case Assign(v, t) => [0x70] + (Spell(w, scope, v) + SpellTarget(w, scope, t))
    case Binary(op, l, rr, t) =>
      [OperatorByte(op)] + (Spell(w, scope, l) + (Spell(w, scope, rr) + SpellTarget(w, scope, t)))
    case Divide(l, rr, t, u) =>
      [0x78] + (Spell(w, scope, l) + (Spell(w, scope, rr) + (SpellTarget(w, scope, t) + SpellTarget(w, scope, u))))
    case Update(up, t) => [if up then 0x75 else 0x76] + SpellTarget(w, scope, t)
    case Invert(v) => [0x80] + Spell(w, scope, v)
    case Not(v) => [0x92] + Spell(w, scope, v)
    case SizeOf(v) => [0x87] + Spell(w, scope, v)
    case TypeOf(v) => [0x8E] + Spell(w, scope, v)
    case Deref(v) => [0x83] + Spell(w, scope, v)
    case Index(b, i, t) => [0x88] + (Spell(w, scope, b) + (Spell(w, scope, i) + SpellTarget(w, scope, t)))
    case Compare(relation, l, rr) => [RelationByte(relation)] + (Spell(w, scope, l) + Spell(w, scope, rr))
    case Call(n, args) => NameNotEmpty(n); SpellName(n) + SpellArgs(w, scope, args)
  }

  lemma NameNotEmpty(n: NameRef)
    requires |n.segments| <= U8_MAX
    ensures SpellName(n) != []
  {
    BodyLead(n.segments);
  }

  function SpellArgs(w: World, scope: Path, args: Args): seq<byte>
    requires ArgsOk(w, scope, args)
  {
    if args.NoArgs? then [] else Spell(w, scope, args.head) + SpellArgs(w, scope, args.tail)
  }

  /** A payload behind its package length, which counts itself. */
  predicate PackageFits(size: nat, payload: seq<byte>) { size + |payload| < PkgBound(size) }

  function SpellPackage(size: nat, payload: seq<byte>): seq<byte>
    requires PackageFits(size, payload)
  {
    EncodePkg(size + |payload|, size) + payload
  }

  predicate InitOk(w: World, scope: Path, init: Init) {
    match init
    case TextInit(bytes) => 0 !in bytes
    case BufferInit(size, length, raw) => ExprOk(w, scope, length) && PackageFits(size, Spell(w, scope, length) + raw)
    case PackageInit(size, count, terms) =>
      ArgsOk(w, scope, terms) && PackageFits(size, [count] + SpellArgs(w, scope, terms))
  }

  function SpellInit(w: World, scope: Path, init: Init): (r: seq<byte>)
    requires InitOk(w, scope, init)
    ensures r != []
  {
    match init
    case TextInit(bytes) => [0x0D] + (bytes + [0x00])
    case BufferInit(size, length, raw) => [0x11] + SpellPackage(size, Spell(w, scope, length) + raw)
    case PackageInit(size, count, terms) => [0x12] + SpellPackage(size, [count] + SpellArgs(w, scope, terms))
  }

  /** The names a field list declares may all be bound. */
  predicate ListMayBind(w: World, scope: Path, list: seq<byte>, cursor: nat)
    decreases |list| - cursor
  {
    cursor < |list| && Loader.EntryAt(list, cursor).Ok? ==>
      match Loader.EntryAt(list, cursor).value
      case Gap(_, next) => ListMayBind(w, scope, list, next)
      case Item(_, next) => MayBind(w, scope, list[cursor..cursor + 4]) && ListMayBind(w, scope, list, next)
  }

  predicate StmtOk(w: World, scope: Path, s: Stmt)
    decreases s, 0
  {
    match s
    case Do(e) => ExprOk(w, scope, e)
    case Return(e) => ExprOk(w, scope, e)
    case Acquire(n, timeout) => NamesRecord(w, scope, n) && |timeout| == 2
    case Release(n) => NamesRecord(w, scope, n)
    case Wait(_, e) => ExprOk(w, scope, e)
    case Signal(n, e) => NamesRecord(w, scope, n) && ExprOk(w, scope, e)
    case Declare(local, init) => MayBind(w, scope, local) && InitOk(w, scope, init)
    case DeclareRegion(local, _, base, length) =>
      MayBind(w, scope, local) && ExprOk(w, scope, base) && ExprOk(w, scope, length)
    case DeclareFields(size, region, flags, list) =>
      NameOk(region) && ListMayBind(w, scope, list, 0) && PackageFits(size, SpellName(region) + ([flags] + list))
    case If(size, c, yes) => GuardedOk(w, scope, size, c, yes)
    case IfElse(size, c, yes, elseSize, no) =>
      GuardedOk(w, scope, size, c, yes) && BlockOk(w, scope, no) && PackageFits(elseSize, SpellBlock(w, scope, no))
    case While(size, c, body) => GuardedOk(w, scope, size, c, body)
    case _ => true
  }

  /** A condition and a body that fit their package. */
  predicate GuardedOk(w: World, scope: Path, size: nat, c: Expr, body: Block)
    decreases body, 2
  {
    ExprOk(w, scope, c) && BlockOk(w, scope, body)
    && PackageFits(size, Spell(w, scope, c) + SpellBlock(w, scope, body))
  }

  predicate BlockOk(w: World, scope: Path, b: Block)
    decreases b, 0
  {
    b.Then? ==> StmtOk(w, scope, b.first) && BlockOk(w, scope, b.rest)
  }

  function SpellGuarded(w: World, scope: Path, size: nat, c: Expr, body: Block): seq<byte>
    requires GuardedOk(w, scope, size, c, body)
    decreases body, 3
  {
    SpellPackage(size, Spell(w, scope, c) + SpellBlock(w, scope, body))
  }

  function SpellStmt(w: World, scope: Path, s: Stmt): (r: seq<byte>)
    requires StmtOk(w, scope, s)
    ensures r != []
    decreases s, 1
  {
    match s
    case Do(e) => Spell(w, scope, e)
    case Noop => [0xA3]
    case Break => [0xA5]
    case Return(e) => [0xA4] + Spell(w, scope, e)
    case Acquire(n, timeout) => [0x5B, 0x23] + (SpellName(n) + timeout)
    case Release(n) => [0x5B, 0x27] + SpellName(n)
    case Wait(stall, e) => [0x5B, if stall then 0x21 else 0x22] + Spell(w, scope, e)
    case Signal(n, e) => [0x5B, 0x86] + (SpellName(n) + Spell(w, scope, e))
    case Declare(local, init) => [0x08] + (local + SpellInit(w, scope, init))
    case DeclareRegion(local, space, base, length) =>
      [0x5B, 0x80] + (local + ([space] + (Spell(w, scope, base) + Spell(w, scope, length))))
    case DeclareFields(size, region, flags, list) =>
      [0x5B, 0x81] + SpellPackage(size, SpellName(region) + ([flags] + list))
    case If(size, c, yes) => [0xA0] + SpellGuarded(w, scope, size, c, yes)
    case IfElse(size, c, yes, elseSize, no) =>
      [0xA0] + SpellGuarded(w, scope, size, c, yes) + ([0xA1] + SpellPackage(elseSize, SpellBlock(w, scope, no)))
    case While(size, c, body) => [0xA2] + SpellGuarded(w, scope, size, c, body)
  }

  function SpellBlock(w: World, scope: Path, b: Block): seq<byte>
    requires BlockOk(w, scope, b)
    decreases b, 1
  {
    if b.Done? then [] else SpellStmt(w, scope, b.first) + SpellBlock(w, scope, b.rest)
  }

  // ---- Meaning ----

  /** What all bodies share: the runtime tables and the host's bytes, if there are any, and what has been
      asked of the host. */
  datatype Shared = Shared(tables: Option<RuntimeState.Overlay>, memory: Option<Fields.Memory>, asked: seq<Request>)

  /** A field bound while a body runs, and what a name can be bound to. */
  datatype DynamicField = DynamicField(region: Fields.Region, bitOffset: u32, bitWidth: u32, access: AccessKind,
                                       update: Fields.UpdateRule)

  datatype Binding = BoundValue(value: Value) | BoundRegion(region: Fields.Region) | BoundField(field: DynamicField)

  const MAX_NAMES: nat := 8

  /** A value a program can use. One that reads elements by Index cannot use a static package, whose elements may
      have to be evaluated. */
  predicate Usable(w: World, v: Value) { w.indexes ==> !v.StaticPackage? }

  predicate SlotsUsable(w: World, slots: seq<Option<Value>>) {
    forall i :: 0 <= i < |slots| && slots[i].Some? ==> Usable(w, slots[i].value)
  }

  predicate NamesClean(w: World, scope: Path, names: map<NameSeg, Binding>) {
    forall n :: n in names ==> MayBind(w, scope, n) && (names[n].BoundValue? ==> Usable(w, names[n].value))
  }

  /** What a running body can change: its own registers and names, and what it shares. */
  datatype Store = Store(locals: seq<Option<Value>>, args: seq<Option<Value>>, names: map<NameSeg, Binding>, shared: Shared)
  {
    predicate Valid() { |locals| == 8 && |args| == 7 }

    function Get(register: Register): (r: Result<Value>)
      ensures r != Err(OutOfFuel)
      ensures forall w, scope {:trigger Clean(w, scope)} :: r.Ok? && Clean(w, scope) ==> Usable(w, r.value)
    {
      match register
      case LocalVariable(i) => if i < |locals| && locals[i].Some? then Ok(locals[i].value) else Err(InvalidState)
      case Argument(i) => if i < |args| && args[i].Some? then Ok(args[i].value) else Err(InvalidState)
    }

    function Set(r: Register, v: Value): (s: Store)
      ensures Valid() ==> s.Valid()
      ensures forall w, scope {:trigger s.Clean(w, scope)} :: Clean(w, scope) && Usable(w, v) ==> s.Clean(w, scope)
    {
      match r
      case LocalVariable(i) => if i < |locals| then this.(locals := locals[i := Some(v)]) else this
      case Argument(i) => if i < |args| then this.(args := args[i := Some(v)]) else this
    }

    /** Every register and name holds a value the program can use, and no bound name hides a method. */
    predicate Clean(w: World, scope: Path) { SlotsUsable(w, locals) && SlotsUsable(w, args) && NamesClean(w, scope, names) }

    /** What a name is bound to in this body. */
    function BindingFor(n: NameRef): Option<Binding> {
      match LocalOf(n)
      case Some(local) => if local in names then Some(names[local]) else None
      case None => None
    }

    /** A name bound in this body: over its old binding, or as one of at most eight. */
    function Bind(n: NameSeg, b: Binding): (r: Result<Store>)
      ensures r != Err(OutOfFuel)
      ensures forall w, q {:trigger r.value.Clean(w, q)} ::
                r.Ok? && Clean(w, q) && MayBind(w, q, n) && (b.BoundValue? ==> Usable(w, b.value)) ==> r.value.Clean(w, q)
    {
      if n in names || |names| < MAX_NAMES then Ok(this.(names := names[n := b])) else Err(Overflow)
    }

    /** The value written to an integer object, if any. */
    function Written(node: nat): Option<u64> {
      if shared.tables.Some? && node in View(shared.tables.value.integers)
      then Some(View(shared.tables.value.integers)[node]) else None
    }
  }

  datatype Control = Continue | Blocked | Leave | Returned(value: Value)

  /** Where a body runs: the scope its names start from, and how deep in calls it is. */
  datatype Site = Site(scope: Path, depth: nat)

  datatype Step = Step(value: Value, store: Store)
  {
    predicate Clean(w: World, scope: Path) { Usable(w, value) && store.Clean(w, scope) }
  }

  /** What a call gives back: a value, and what is shared as it left it. */
  datatype Answer = Answer(value: Value, shared: Shared)

  datatype ArgStep = ArgStep(values: seq<Value>, store: Store)
  {
    predicate Clean(w: World, scope: Path) { AllUsable(w, values) && store.Clean(w, scope) }
  }

  datatype Flow = Flow(control: Control, store: Store)
  {
    predicate Clean(w: World, scope: Path) {
      (control.Returned? ==> Usable(w, control.value)) && store.Clean(w, scope)
    }
  }

  predicate AllUsable(w: World, values: seq<Value>) {
    forall i :: 0 <= i < |values| ==> Usable(w, values[i])
  }

  function NothingYet(n: nat): (r: seq<Option<Value>>)
    ensures |r| == n && forall i :: 0 <= i < n ==> r[i].None?
  {
    if n == 0 then [] else NothingYet(n - 1) + [None]
  }

  function Given(values: seq<Value>): (r: seq<Option<Value>>)
    ensures |r| == |values| && forall i :: 0 <= i < |r| ==> r[i] == Some(values[i])
  {
    if values == [] then [] else Given(values[..|values| - 1]) + [Some(values[|values| - 1])]
  }

  /** What a called body starts with. */
  function Entry(values: seq<Value>, shared: Shared): (s: Store)
    requires |values| <= 7
    ensures s.Valid() && s.shared == shared
    ensures forall i :: 0 <= i < 7 ==> s.args[i] == if i < |values| then Some(values[i]) else None
    ensures forall i :: 0 <= i < 8 ==> s.locals[i].None?
    ensures s.names == map[]
    ensures forall w, scope {:trigger s.Clean(w, scope)} :: AllUsable(w, values) ==> s.Clean(w, scope)
  {
    Store(NothingYet(8), Given(values) + NothingYet(7 - |values|), map[], shared)
  }

  /** The region a field lies in. */
  function RegionOfField(rs: Records, field: FieldInfo): (r: Result<Fields.Region>)
    ensures r != Err(OutOfFuel)
  {
    if field.region.None? then Err(InvalidState)
    else match FindId(rs, field.region.value)
      case None => Err(UndefinedObject)
      case Some(i) =>
        if !rs[i].payload.RegionPayload? then Err(InvalidState)
        else Ok(RegionOf(rs[i].payload.region))
  }

  /** The number a field's bits spell on the host. */
  function GetField(w: World, field: FieldInfo, memory: Option<Fields.Memory>): (r: Result<u64>)
    ensures r != Err(OutOfFuel)
  {
    if memory.None? then Err(Unsupported)
    else
      var region :- RegionOfField(w.records, field);
      Fields.Load(memory.value, region, field.bitOffset, field.bitWidth)
  }

  /** The host's bytes after a value is stored in a field. */
  function PutField(w: World, field: FieldInfo, v: Value, memory: Option<Fields.Memory>): (r: Result<Fields.Memory>)
    ensures r != Err(OutOfFuel)
  {
    if memory.None? then Err(Unsupported)
    else
      var x :- AsInteger(v);
      var region :- RegionOfField(w.records, field);
      Fields.Store(memory.value, region, field.bitOffset, field.bitWidth, field.update, x)
  }

  /** The current value of an object: of an integer what was written, else what the namespace declares; of
      a field what its bits spell. */
  function CellAt(w: World, record: Record, s: Store): (r: Result<Value>)
    ensures r != Err(OutOfFuel) && (r.Ok? ==> r.value.Integer?)
  {
    match record.payload
    case IntegerPayload(declared) =>
      Ok(Reduced(match s.Written(record.id) case Some(v) => v case None => declared, w.width))
    case FieldPayload(field) =>
      var bits :- GetField(w, field, s.shared.memory);
      Ok(Reduced(bits, w.width))
    case _ => Err(Unsupported)
  }

  /** The current value of a name: what it is bound to in this body, else what the namespace leads to. */
  function NamedAt(w: World, scope: Path, n: NameRef, s: Store): (r: Result<Value>)
    requires |n.segments| <= U8_MAX
    ensures r != Err(OutOfFuel)
    ensures r.Ok? && s.Clean(w, scope) ==> Usable(w, r.value)
  {
    match s.BindingFor(n)
    case Some(BoundValue(v)) => Ok(v)
    case Some(BoundField(f)) =>
      if s.shared.memory.None? then Err(Unsupported)
      else
        var bits :- Fields.Load(s.shared.memory.value, f.region, f.bitOffset, f.bitWidth);
        Ok(Reduced(bits, w.width))
    case _ =>
      var record :- RecordNamed(w, scope, n);
      CellAt(w, record, s)
  }

  /** A value put into a name: a buffer bound to it is filled, a bound field written, another bound value
      replaced; and an object of the namespace otherwise. */
  function PutNamed(w: World, scope: Path, n: NameRef, v: Value, s: Store): (r: Result<Store>)
    requires |n.segments| <= U8_MAX
    ensures r != Err(OutOfFuel)
    ensures r.Ok? && s.Clean(w, scope) && Usable(w, v) ==> r.value.Clean(w, scope)
  {
    match s.BindingFor(n)
    case Some(BoundField(f)) =>
      if s.shared.memory.None? then Err(Unsupported)
      else
        var x :- AsInteger(v);
        var m :- Fields.Store(s.shared.memory.value, f.region, f.bitOffset, f.bitWidth, f.update, x);
        Ok(s.(shared := s.shared.(memory := Some(m))))
    case Some(BoundValue(BufferHandle(h))) =>
      if s.shared.tables.None? then Err(Unsupported)
      else
        var o :- FillBuffer(w.blocks, s.shared.tables.value, h, v);
        Ok(s.(shared := s.shared.(tables := Some(o))))
    case Some(BoundValue(_)) => Ok(s.(names := s.names[LocalOf(n).value := BoundValue(v)]))
    case _ =>
      var record :- RecordNamed(w, scope, n);
      var shared :- PutCell(w, record, v, s.shared);
      Ok(s.(shared := shared))
  }

  /** The region a name leads to: one bound in this body, else one of the namespace. */
  function RegionFor(w: World, scope: Path, n: NameRef, s: Store): (r: Result<Fields.Region>)
    requires |n.segments| <= U8_MAX
    ensures r != Err(OutOfFuel)
  {
    match s.BindingFor(n)
    case Some(BoundRegion(region)) => Ok(region)
    case _ =>
      var record :- RecordNamed(w, scope, n);
      if record.payload.RegionPayload? then Ok(RegionOf(record.payload.region)) else Err(Unsupported)
  }

  function RegionOf(info: RegionInfo): Fields.Region { Fields.Region(info.space, info.offset, info.length) }

  /** The names after the entries of a field list from `cursor` on have been bound, in order, the first bit there
      being bit `at` of the region. */
  function FieldsInto(s: Store, region: Fields.Region, flags: byte, list: seq<byte>, cursor: nat, at: nat)
    : (r: Result<Store>)
    ensures r != Err(OutOfFuel)
    ensures forall w, q {:trigger r.value.Clean(w, q)} ::
              r.Ok? && s.Clean(w, q) && ListMayBind(w, q, list, cursor) ==> r.value.Clean(w, q)
    decreases |list| - cursor
  {
    if cursor >= |list| then Ok(s)
    else
      var entry :- Loader.EntryAt(list, cursor);
      match entry
      case Gap(bits, next) => FieldsInto(s, region, flags, list, next, at + bits)
      case Item(width, next) =>
        var s' :- s.Bind(list[cursor..cursor + 4], FieldIn(region, flags, at, width));
        FieldsInto(s', region, flags, list, next, at + width)
  }

  function FieldIn(region: Fields.Region, flags: byte, at: nat, width: u32): Binding {
    BoundField(DynamicField(region, Loader.Saturated(at), width, Loader.FieldAccess(flags), Loader.FieldUpdate(flags)))
  }

  /** A value put into an object: into the tables for an integer, into the host's bits for a field. */
  function PutCell(w: World, record: Record, v: Value, s: Shared): (r: Result<Shared>)
    ensures r != Err(OutOfFuel)
  {
    match record.payload
    case IntegerPayload(_) => var o :- PutInteger(s.tables, record.id, v); Ok(s.(tables := Some(o)))
    case FieldPayload(field) => var m :- PutField(w, field, v, s.memory); Ok(s.(memory := Some(m)))
    case _ => Err(Unsupported)
  }

  /** An integer written to the tables. */
  function PutInteger(tables: Option<RuntimeState.Overlay>, node: nat, v: Value): (r: Result<RuntimeState.Overlay>)
    ensures r != Err(OutOfFuel)
  {
    if tables.None? then Err(Unsupported)
    else
      var x :- AsInteger(v);
      var t :- Put(tables.value.integers, node, x);
      Ok(tables.value.(integers := t))
  }

  /** The value a target holds before it is updated. */
  function ValueAt(w: World, scope: Path, t: Target, s: Store): (r: Result<Value>)
    requires t.IntoName? ==> NameOk(t.name)
    ensures r != Err(OutOfFuel)
  {
    match t
    case Discard => Err(Unsupported)
    case Into(g) => s.Get(g)
    case IntoName(n) => NamedAt(w, scope, n, s)
    case IntoIndex(_, _, _) => Err(Unsupported)
  }

  /** The length of a text, buffer or package, wherever its contents are kept. */
  function SizeOfValue(blocks: seq<seq<byte>>, tables: Option<RuntimeState.Overlay>, v: Value): (r: Result<nat>)
    ensures r != Err(OutOfFuel)
  {
    match v
    case Text(bytes) => Ok(|bytes|)
    case Buffer(bytes) => Ok(|bytes|)
    case Package(elements) => Ok(|elements|)
    case StaticText(location) =>
      (match CodeBytes(blocks, location) case Some(code) => Ok(|code|) case None => Err(InvalidState))
    case StaticPackage(location) =>
      (match CodeBytes(blocks, location)
       case None => Err(InvalidState)
       case Some(code) => var x :- CountedAt(code); Ok(code[x.start]))
    case BufferHandle(h) =>
      if tables.None? || RuntimeState.BufferAt(tables.value, h).None? then Err(Unsupported)
      else Ok(RuntimeState.BufferAt(tables.value, h).value.len)
    case PackageHandle(h) =>
      if tables.None? || RuntimeState.PackageAt(tables.value, h).None? then Err(Unsupported)
      else Ok(RuntimeState.PackageAt(tables.value, h).value.len)
    case _ => Err(Unsupported)
  }

  /** A package's own extent: where its payload starts and where it ends. */
  datatype Extent = Extent(start: nat, end: nat)

  /** A package that must have a count byte after its length. */
  function CountedAt(bytes: seq<byte>): (r: Result<Extent>)
    ensures r.Ok? ==> 1 < r.value.start < r.value.end <= |bytes|
    ensures r != Err(OutOfFuel)
  {
    if bytes == [] then Err(Fault)
    else
      var pkg :- ParsePkg(bytes[1..]);
      if 1 + pkg.value > |bytes| || pkg.encoded >= pkg.value then Err(Truncated)
      else Ok(Extent(1 + pkg.encoded, 1 + pkg.value))
  }

  /** The scope a method's body starts its lookups from: the parent of the method's own path. */
  function BodyScope(rs: Records, node: nat): Path
    requires FindId(rs, node).Some?
  {
    var path := rs[FindId(rs, node).value].path;
    if path == [] then [] else Parent(path)
  }

  /** A value put where a target says. An indexed target evaluates its operands first, and writes nothing
      where its own target says. */
  function PutAt(w: World, at: Site, t: Target, v: Value, s: Store, fuel: nat): (r: Result<Store>)
    ensures r.Ok? && s.Clean(w, at.scope) && Usable(w, v) ==> r.value.Clean(w, at.scope)
    decreases MAX_DEPTH - at.depth, t, 0
  {
    match t
    case Discard => Ok(s)
    case Into(g) => Ok(s.Set(g, v))
    case IntoName(n) => if NameOk(n) then PutNamed(w, at.scope, n, v, s) else Err(InvalidName)
    case IntoIndex(base, index, rest) =>
      if s.shared.tables.None? then Err(Unsupported)
      else
        var x :- Eval(w, at, base, s, fuel);
        var y :- Eval(w, at, index, x.store, fuel);
        var s' :- PutAt(w, at, rest, NoValue, y.store, fuel);
        PutIndexed(w, at.scope, x.value, y.value, v, s')
  }

  /** The store into an element, once its package or buffer and its index are known. */
  function PutIndexed(w: World, scope: Path, base: Value, index: Value, v: Value, s: Store): (r: Result<Store>)
    ensures r != Err(OutOfFuel)
    ensures r.Ok? && s.Clean(w, scope) ==> r.value.Clean(w, scope)
  {
    var k :- AsInteger(index);
    if s.shared.tables.None? then Err(Unsupported)
    else
      var o :- PutElement(s.shared.tables.value, base, k, v);
      Ok(s.(shared := s.shared.(tables := Some(o))))
  }

  /** The element read, put where the target says. */
  function Indexed(w: World, at: Site, t: Target, base: Value, y: Step, fuel: nat): (r: Result<Step>)
    ensures r.Ok? && y.store.Clean(w, at.scope) ==> r.value.Clean(w, at.scope)
    decreases MAX_DEPTH - at.depth, t, 1
  {
    var k :- AsInteger(y.value);
    var v :- ElementAt(w.width, y.store.shared.tables, base, k);
    var s :- PutAt(w, at, t, v, y.store, fuel);
    Ok(Step(v, s))
  }

  /** The result of an operator on two values, put where its target says. */
  function Combined(w: World, at: Site, op: Operator, t: Target, x: Value, y: Step, fuel: nat): (r: Result<Step>)
    ensures r.Ok? && y.store.Clean(w, at.scope) ==> r.value.Clean(w, at.scope)
    decreases MAX_DEPTH - at.depth, t, 1
  {
    var a :- AsInteger(x);
    var b :- AsInteger(y.value);
    var v := Integer(Meaning(op, a, b, w.width));
    var s :- PutAt(w, at, t, v, y.store, fuel);
    Ok(Step(v, s))
  }

  function QuotientOf(a: nat, b: nat, width: Width): (v: Value)
    requires b > 0
    ensures v.Integer?
  {
    Reduced(a / b, width)
  }

  function RemainderOf(a: nat, b: nat, width: Width): (v: Value)
    requires b > 0
    ensures v.Integer?
  {
    Reduced(a % b, width)
  }

  /** The remainder goes to the first target and then the quotient to the second. */
  function Divided(w: World, at: Site, e: Expr, x: Value, y: Step, fuel: nat): (r: Result<Step>)
    requires e.Divide?
    ensures r.Ok? && y.store.Clean(w, at.scope) ==> r.value.Clean(w, at.scope)
    decreases MAX_DEPTH - at.depth, e, -1
  {
    var b :- AsInteger(y.value);
    if b == 0 then Err(InvalidState)
    else
      var a :- AsInteger(x);
      var v := QuotientOf(a, b, w.width);
      var s :- PutAt(w, at, e.remainder, RemainderOf(a, b, w.width), y.store, fuel);
      var s' :- PutAt(w, at, e.quotient, v, s, fuel);
      Ok(Step(v, s'))
  }

  /** One if the relation holds between the two numbers, else zero. */
  function Compared(w: World, relation: Relation, x: Value, y: Step): (r: Result<Step>)
    ensures r != Err(OutOfFuel)
    ensures forall scope {:trigger r.value.Clean(w, scope)} ::
              r.Ok? && y.store.Clean(w, scope) ==> r.value.Clean(w, scope)
  {
    var a :- AsInteger(x);
    var b :- AsInteger(y.value);
    Ok(Step(Reduced(if relation.Test(a, b) then 1 else 0, w.width), y.store))
  }

  /** The value of an expression and the store it leaves. `fuel` bounds the turns of each loop. */
  function Eval(w: World, at: Site, e: Expr, s: Store, fuel: nat): (r: Result<Step>)
    ensures r.Ok? && s.Clean(w, at.scope) ==> r.value.Clean(w, at.scope)
    decreases MAX_DEPTH - at.depth, e, 0
  {
    match e
    case Zero => Ok(Step(Reduced(0, w.width), s))
    case One => Ok(Step(Reduced(1, w.width), s))
    case Ones => Ok(Step(Reduced(-1, w.width), s))
    case Literal(bytes) => Ok(Step(Reduced(LittleEndian(bytes), w.width), s))
    case Read(r) => var v :- s.Get(r); Ok(Step(v, s))
    case Chars(bytes) => if w.isText(bytes) then Ok(Step(Text(bytes), s)) else Err(InvalidBytecode)
    case Named(n) =>
      if !NameOk(n) then Err(InvalidName)
      else
        var v :- NamedAt(w, at.scope, n, s);
        Ok(Step(v, s))
    case Assign(v, t) =>
      var x :- Eval(w, at, v, s, fuel);
      var s' :- PutAt(w, at, t, x.value, x.store, fuel);
      Ok(Step(x.value, s'))
    case Binary(op, l, r, t) =>
      var x :- Eval(w, at, l, s, fuel);
      var y :- Eval(w, at, r, x.store, fuel);
      Combined(w, at, op, t, x.value, y, fuel)
    case Divide(l, r, _, _) =>
      var x :- Eval(w, at, l, s, fuel);
      var y :- Eval(w, at, r, x.store, fuel);
      Divided(w, at, e, x.value, y, fuel)
    case Update(up, t) =>
      var x :- if t.IntoName? && !NameOk(t.name) then Err(InvalidName) else ValueAt(w, at.scope, t, s);
      var a :- AsInteger(x);
      var v := Reduced(if up then a + 1 else a - 1, w.width);
      var s' :- PutAt(w, at, t, v, s, fuel);
      Ok(Step(v, s'))
    case Invert(v) =>
      var x :- Eval(w, at, v, s, fuel);
      var a :- AsInteger(x.value);
      Ok(Step(Reduced(-1 - a, w.width), x.store))
    case Not(v) =>
      var x :- Eval(w, at, v, s, fuel);
      Ok(Step(Reduced(if AsLogic(x.value) then 0 else 1, w.width), x.store))
    case SizeOf(v) =>
      var x :- Eval(w, at, v, s, fuel);
      var n :- SizeOfValue(w.blocks, x.store.shared.tables, x.value);
      Ok(Step(Reduced(n, w.width), x.store))
    case TypeOf(v) =>
      var x :- Eval(w, at, v, s, fuel);
      Ok(Step(Reduced(ObjectType(x.value), w.width), x.store))
    case Deref(v) => Eval(w, at, v, s, fuel)
    case Index(b, i, t) =>
      var x :- Eval(w, at, b, s, fuel);
      var y :- Eval(w, at, i, x.store, fuel);
      Indexed(w, at, t, x.value, y, fuel)
    case Compare(relation, l, r) =>
      var x :- Eval(w, at, l, s, fuel);
      var y :- Eval(w, at, r, x.store, fuel);
      Compared(w, relation, x.value, y)
    case Call(n, args) =>
      if at.depth >= MAX_DEPTH then Err(InvalidState)
      else
        var given :- EvalArgs(w, at, args, s, fuel);
        var answer :- Invoke(w, at, n, given.values, given.store.shared, fuel);
        Ok(Step(answer.value, given.store.(shared := answer.shared)))
  }

  function EvalArgs(w: World, at: Site, args: Args, s: Store, fuel: nat): (r: Result<ArgStep>)
    ensures r.Ok? ==> |r.value.values| == ArgCount(args)
    ensures r.Ok? && s.Clean(w, at.scope) ==> r.value.Clean(w, at.scope)
    decreases MAX_DEPTH - at.depth, args, 0
  {
    match args
    case NoArgs => Ok(ArgStep([], s))
    case MoreArgs(head, tail) =>
      var x :- Eval(w, at, head, s, fuel);
      var more :- EvalArgs(w, at, tail, x.store, fuel);
      Ok(ArgStep([x.value] + more.values, more.store))
  }

  /** What a declared Name starts as: a text, or a new buffer or package in the tables. */
  function Build(w: World, at: Site, init: Init, s: Store, fuel: nat): (r: Result<Step>)
    ensures r.Ok? && s.Clean(w, at.scope) ==> r.value.Clean(w, at.scope)
    decreases MAX_DEPTH - at.depth, init, 0
  {
    match init
    case TextInit(bytes) => if w.isText(bytes) then Ok(Step(Text(bytes), s)) else Err(InvalidBytecode)
    case BufferInit(_, length, raw) =>
      if s.shared.tables.None? then Err(Unsupported)
      else
        var x :- Eval(w, at, length, s, fuel);
        Buffered(x.value, raw, x.store)
    case PackageInit(_, count, terms) =>
      if s.shared.tables.None? then Err(Unsupported)
      else
        var m :- NewPackage(s.shared.tables.value, count);
        var s' :- Fill(w, at, m.handle, 0, count, terms, s.(shared := s.shared.(tables := Some(m.overlay))), fuel);
        Ok(Step(PackageHandle(m.handle), s'))
  }

  /** The buffer once its length is known. */
  function Buffered(length: Value, raw: seq<byte>, s: Store): (r: Result<Step>)
    ensures r != Err(OutOfFuel)
    ensures forall w, q {:trigger r.value.Clean(w, q)} :: r.Ok? && s.Clean(w, q) ==> r.value.Clean(w, q)
  {
    var n :- AsInteger(length);
    if n > U8_MAX then Err(Overflow)
    else if s.shared.tables.None? then Err(Unsupported)
    else
      var m :- NewBuffer(s.shared.tables.value, n, raw);
      Ok(Step(BufferHandle(m.handle), s.(shared := s.shared.(tables := Some(m.overlay)))))
  }

  /** The terms are evaluated in order, and each is stored before the next: element `k` is the value of the first
      of them, the next element that of the second, until the package is full or the terms run out. */
  function Fill(w: World, at: Site, h: nat, k: nat, count: nat, terms: Args, s: Store, fuel: nat): (r: Result<Store>)
    ensures r.Ok? && s.Clean(w, at.scope) ==> r.value.Clean(w, at.scope)
    decreases MAX_DEPTH - at.depth, terms, 1
  {
    if terms.NoArgs? || k >= count then Ok(s)
    else
      var x :- Eval(w, at, terms.head, s, fuel);
      var s' :- PutIndexed(w, at.scope, PackageHandle(h), Integer(if k <= U8_MAX then k else U8_MAX), x.value, x.store);
      Fill(w, at, h, k + 1, count, terms.tail, s', fuel)
  }

  /** A call runs the library's body for the method with registers of its own. */
  function Invoke(w: World, at: Site, n: NameRef, values: seq<Value>, shared: Shared, fuel: nat): (r: Result<Answer>)
    requires at.depth < MAX_DEPTH
    ensures r.Ok? && AllUsable(w, values) ==> Usable(w, r.value.value)
    decreases MAX_DEPTH - at.depth - 1
  {
    if !NamesRecord(w, at.scope, n) || |values| > 7 then Err(Unsupported)
    else match RecordNamed(w, at.scope, n).value.payload
      case MethodPayload(m) =>
        if m.node !in w.library || FindId(w.records, m.node).None? then Err(UndefinedObject)
        else
          var inner := Site(BodyScope(w.records, m.node), at.depth + 1);
          var f :- Execute(w, inner, w.library[m.node], Entry(values, shared), fuel);
          (match f.control
           case Continue => Ok(Answer(NoValue, f.store.shared))
           case Blocked => Err(Unsupported)
           case Leave => Err(InvalidState)
           case Returned(v) => Ok(Answer(v, f.store.shared)))
      case _ => Err(Unsupported)
  }

  /** Taking a mutex that is held stops the body. */
  function Take(w: World, scope: Path, n: NameRef, s: Store): (r: Result<Flow>)
    ensures r != Err(OutOfFuel) && (forall q {:trigger r.value.Clean(w, q)} :: r.Ok? && s.Clean(w, q) ==> r.value.Clean(w, q))
  {
    if !NamesRecord(w, scope, n) || s.shared.tables.None? then Err(Unsupported)
    else
      var o := s.shared.tables.value;
      var a :- RuntimeState.Acquired(o.mutexes, RecordNamed(w, scope, n).value.id);
      Ok(Flow(if a.granted then Continue else Blocked,
              s.(shared := s.shared.(tables := Some(o.(mutexes := a.table))))))
  }

  function GiveBack(w: World, scope: Path, n: NameRef, s: Store): (r: Result<Flow>)
    ensures r != Err(OutOfFuel) && (forall q {:trigger r.value.Clean(w, q)} :: r.Ok? && s.Clean(w, q) ==> r.value.Clean(w, q))
  {
    if !NamesRecord(w, scope, n) || s.shared.tables.None? then Err(Unsupported)
    else
      var o := s.shared.tables.value;
      var t :- RuntimeState.Released(o.mutexes, RecordNamed(w, scope, n).value.id);
      Ok(Flow(Continue, s.(shared := s.shared.(tables := Some(o.(mutexes := t))))))
  }

  /** A request made of the host, which it may turn down. */
  function Asked(w: World, request: Request, s: Store): (r: Result<Flow>)
    ensures r != Err(OutOfFuel) && (forall q {:trigger r.value.Clean(w, q)} :: r.Ok? && s.Clean(w, q) ==> r.value.Clean(w, q))
  {
    if w.accepts(request) then Ok(Flow(Continue, s.(shared := s.shared.(asked := s.shared.asked + [request]))))
    else Err(HostFailure)
  }

  function Declared(w: World, scope: Path, local: NameSeg, b: Binding, s: Store): (r: Result<Flow>)
    requires MayBind(w, scope, local)
    ensures r != Err(OutOfFuel)
    ensures r.Ok? && s.Clean(w, scope) && (b.BoundValue? ==> Usable(w, b.value)) ==> r.value.Clean(w, scope)
  {
    var s' :- s.Bind(local, b);
    Ok(Flow(Continue, s'))
  }

  /** A region whose base and length have been evaluated. */
  function RegionDeclared(w: World, scope: Path, local: NameSeg, space: byte, base: Value, length: Step): (r: Result<Flow>)
    requires MayBind(w, scope, local)
    ensures r != Err(OutOfFuel)
    ensures r.Ok? && length.store.Clean(w, scope) ==> r.value.Clean(w, scope)
  {
    var b :- AsInteger(base);
    var l :- AsInteger(length.value);
    var region := Fields.Region(Loader.AddressSpace(space), Some(b), Some(l));
    Declared(w, scope, local, BoundRegion(region), length.store)
  }

  function FieldsDeclared(w: World, scope: Path, region: NameRef, flags: byte, list: seq<byte>, s: Store)
    : (r: Result<Flow>)
    requires NameOk(region) && ListMayBind(w, scope, list, 0)
    ensures r != Err(OutOfFuel)
    ensures r.Ok? && s.Clean(w, scope) ==> r.value.Clean(w, scope)
  {
    var into :- RegionFor(w, scope, region, s);
    var s' :- FieldsInto(s, into, flags, list, 0, 0);
    Ok(Flow(Continue, s'))
  }

  function ExecuteStmt(w: World, at: Site, st: Stmt, s: Store, fuel: nat): (r: Result<Flow>)
    ensures r.Ok? && s.Clean(w, at.scope) ==> r.value.Clean(w, at.scope)
    decreases MAX_DEPTH - at.depth, st
  {
    match st
    case Do(e) => var x :- Eval(w, at, e, s, fuel); Ok(Flow(Continue, x.store))
    case Noop => Ok(Flow(Continue, s))
    case Break => Ok(Flow(Leave, s))
    case Return(e) => var x :- Eval(w, at, e, s, fuel); Ok(Flow(Returned(x.value), x.store))
    case Acquire(n, _) => Take(w, at.scope, n, s)
    case Release(n) => GiveBack(w, at.scope, n, s)
    case Wait(stall, e) =>
      if s.shared.memory.None? then Err(Unsupported)
      else
        var x :- Eval(w, at, e, s, fuel);
        var n :- AsInteger(x.value);
        Asked(w, if stall then Stall(n % 0x1_0000_0000) else Sleep(n % 0x1_0000_0000), x.store)
    case Signal(device, e) =>
      if s.shared.memory.None? || !NamesRecord(w, at.scope, device) then Err(Unsupported)
      else
        var x :- Eval(w, at, e, s, fuel);
        var n :- AsInteger(x.value);
        Asked(w, Notify(RecordNamed(w, at.scope, device).value.id, n % 256), x.store)
    case Declare(local, init) =>
      if !MayBind(w, at.scope, local) then Err(InvalidName)
      else
        var x :- Build(w, at, init, s, fuel);
        Declared(w, at.scope, local, BoundValue(x.value), x.store)
    case DeclareRegion(local, space, base, length) =>
      if !MayBind(w, at.scope, local) then Err(InvalidName)
      else
        var x :- Eval(w, at, base, s, fuel);
        var y :- Eval(w, at, length, x.store, fuel);
        RegionDeclared(w, at.scope, local, space, x.value, y)
    case DeclareFields(_, region, flags, list) =>
      if !NameOk(region) || !ListMayBind(w, at.scope, list, 0) then Err(InvalidName)
      else FieldsDeclared(w, at.scope, region, flags, list, s)
    case If(_, c, yes) =>
      var x :- Eval(w, at, c, s, fuel);
      if AsLogic(x.value) then Execute(w, at, yes, x.store, fuel) else Ok(Flow(Continue, x.store))
    case IfElse(_, c, yes, _, no) =>
      var x :- Eval(w, at, c, s, fuel);
      if AsLogic(x.value) then Execute(w, at, yes, x.store, fuel) else Execute(w, at, no, x.store, fuel)
    case While(_, _, _) => Turns(w, at, st, s, fuel, fuel)
  }

  /** The turns of a loop: the condition is evaluated before each. */
  function Turns(w: World, at: Site, st: Stmt, s: Store, fuel: nat, turns: nat): (r: Result<Flow>)
    requires st.While?
    ensures r.Ok? && s.Clean(w, at.scope) ==> r.value.Clean(w, at.scope)
    decreases MAX_DEPTH - at.depth, st, turns
  {
    if turns == 0 then Err(OutOfFuel)
    else
      var x :- Eval(w, at, st.condition, s, fuel);
      if !AsLogic(x.value) then Ok(Flow(Continue, x.store))
      else
        var f :- Execute(w, at, st.body, x.store, fuel);
        match f.control
        case Continue => Turns(w, at, st, f.store, fuel, turns - 1)
        case Leave => Ok(Flow(Continue, f.store))
        case _ => Ok(f)
  }

  function Execute(w: World, at: Site, b: Block, s: Store, fuel: nat): (r: Result<Flow>)
    ensures r.Ok? && s.Clean(w, at.scope) ==> r.value.Clean(w, at.scope)
    decreases MAX_DEPTH - at.depth, b
  {
    match b
    case Done => Ok(Flow(Continue, s))
    case Then(first, rest) =>
      var f :- ExecuteStmt(w, at, first, s, fuel);
      if f.control.Continue? then Execute(w, at, rest, f.store, fuel) else Ok(f)
  }
}
